/**
 * The values the account service handles and the library routines it calls.
 * The library routines (address parsing, base64, PBKDF2, GUID parsing and
 * formatting) are not re-implemented: they are fields of `Library`, so every
 * statement of the model holds for any deterministic implementation of them.
 */
module Platform {
  import opened Wrappers

  newtype byte = b: int | 0 <= b < 256

  /** A 128-bit globally unique identifier (System.Guid). */
  newtype Guid = g: int | 0 <= g < 0x1_0000_0000_0000_0000_0000_0000_0000_0000

  /** An IP address: its textual form (ToString) and its raw bytes (GetAddressBytes). */
  datatype IpAddress = IpAddress(text: string, bytes: seq<byte>)

  /** One gRPC request metadata entry, in the order the request carries them. */
  datatype Header = Header(key: string, value: string)

  /** DateTime values as a count of 100-nanosecond ticks. */
  const TicksPerMinute: int := 600_000_000
  const TicksPerDay: int := 24 * 60 * TicksPerMinute

  /**
   * The library routines the service calls. A routine that throws on bad
   * input returns `None`.
   */
  datatype Library = Library(
    parseAddress: string -> Option<IpAddress>,              // IPAddress.Parse
    fromBase64: string -> Option<seq<byte>>,                // Convert.FromBase64String
    toBase64: seq<byte> -> string,                          // Convert.ToBase64String
    deriveBytes: (seq<byte>, seq<byte>, nat, nat) -> seq<byte>, // new Rfc2898DeriveBytes(password, salt, iterations).GetBytes(length)
    parseGuid: string -> Option<Guid>,                      // Guid.TryParse
    formatGuid: Guid -> string                              // Guid.ToString()
  )
}
