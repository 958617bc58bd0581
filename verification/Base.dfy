/** Values shared by every component: results, error codes, UTF-8 text and its validation. */
module Base {
  datatype Option<+T> = None | Some(value: T)

  datatype Result<+T, +E> = Ok(value: T) | Err(error: E)

  /** The error codes the modelled components distinguish. */
  datatype ErrorCode =
    | OutcomeUnknown
    | RemoteWipe
    | IdempotencyConflict
    | StorageError
    | ValidationFailed
    | ReferenceExpired
    | ProtocolError
    | ResultTooLarge
    | Other(name: Text)

  type Byte = b: int | 0 <= b < 256

  /** Text as its UTF-8 bytes: the source measures lengths in bytes. */
  type Text = seq<Byte>

  predicate Continues(t: Text, n: nat) {
    n < |t| && forall i | 1 <= i <= n :: 0x80 <= t[i] <= 0xBF
  }

  /** How long the well-formed UTF-8 sequence at the front is; 0 when there is none. */
  function FrontLength(t: Text): (n: nat)
    ensures n <= |t|
  {
    if t == [] then 0
    else if t[0] < 0x80 then 1
    else if 0xC2 <= t[0] <= 0xDF && Continues(t, 1) then 2
    else if 0xE0 <= t[0] <= 0xEF && Continues(t, 2) && (t[0] == 0xE0 ==> t[1] >= 0xA0) && (t[0] == 0xED ==> t[1] <= 0x9F) then 3
    else if 0xF0 <= t[0] <= 0xF4 && Continues(t, 3) && (t[0] == 0xF0 ==> t[1] >= 0x90) && (t[0] == 0xF4 ==> t[1] <= 0x8F) then 4
    else 0
  }

  /** The byte sequences that are text at all. */
  predicate Utf8(t: Text) {
    t == [] || (FrontLength(t) > 0 && Utf8(t[FrontLength(t)..]))
  }

  /** `char::is_control` on UTF-8 bytes: U+0000-U+001F, U+007F, and U+0080-U+009F as C2 80 - C2 9F. */
  predicate HasControl(t: Text) {
    exists i | 0 <= i < |t| ::
      t[i] < 0x20 || t[i] == 0x7f || (0 < i && t[i-1] == 0xC2 && 0x80 <= t[i] <= 0x9F)
  }

  predicate ValidRequired(t: Text, maximum: nat) {
    t != [] && |t| <= maximum && Utf8(t) && !HasControl(t)
  }

  predicate ValidOptional(t: Text, maximum: nat) {
    |t| <= maximum && Utf8(t) && !HasControl(t)
  }
}
