/** Shared vocabulary of the model: optional values, instants, HTTP replies and the
    few string helpers (trimming, ASCII case folding, substring search) that the
    route handlers and the client rely on. */
module Common {

  datatype Option<+T> = None | Some(value: T)

  /** A point in time in milliseconds since the epoch, as JavaScript `Date` values compare. */
  type Instant = int

  const MsPerSecond: int := 1000
  const MsPerMinute: int := 60 * MsPerSecond
  const MsPerDay: int := 24 * 60 * MsPerMinute

  /** What a route handler answers: success, an HTTP error status with its message, or
      400 with the list of express-validator messages (`{ errors: errors.array() }`). */
  datatype Reply = Ok | Error(status: int, message: string) | Invalid(errors: seq<string>)

  const ServerErrorReply := Error(500, "Server error")

  /** The user a notification is addressed to: a user id, the `user` of a donor
      document looked up by its id, or `undefined`, which is what reading `user` off a
      bare donor id gives. */
  datatype Recipient = ToUser(user: nat) | ToUserOfDonor(donor: nat) | Undefined

  /** A call of `Notification.createNotification`, recorded instead of performed. */
  datatype Notice = Notice(recipient: Recipient, kind: string, title: string, priority: string)

  // ---------------------------------------------------------------------------
  // Strings

  predicate IsSpace(c: char) {
    c == ' ' || c == '\t' || c == '\n' || c == '\r' || c == '\U{B}' || c == '\U{C}'
  }

  function TrimStart(s: string): (r: string)
    ensures |r| <= |s| && r == s[|s| - |r|..]
    ensures r != [] ==> !IsSpace(r[0])
    ensures forall i :: 0 <= i < |s| - |r| ==> IsSpace(s[i])
  {
    if s != [] && IsSpace(s[0]) then TrimStart(s[1..]) else s
  }

  function TrimEnd(s: string): (r: string)
    ensures |r| <= |s| && r == s[..|r|]
    ensures r != [] ==> !IsSpace(r[|r| - 1])
    ensures forall i :: |r| <= i < |s| ==> IsSpace(s[i])
  {
    if s != [] && IsSpace(s[|s| - 1]) then TrimEnd(s[..|s| - 1]) else s
  }

  /** `s` is `r` with white space only before position `i` and after `r`. */
  predicate PaddedAt(s: string, r: string, i: int) {
    && 0 <= i <= |s| - |r| && r == s[i..i + |r|]
    && (forall k :: 0 <= k < i ==> IsSpace(s[k]))
    && (forall k :: i + |r| <= k < |s| ==> IsSpace(s[k]))
  }

  /** `String.prototype.trim` (the sanitizer express-validator's `trim()` applies). */
  function Trim(s: string): (r: string)
    ensures |r| <= |s|
    ensures r != [] ==> !IsSpace(r[0]) && !IsSpace(r[|r| - 1])
    ensures exists i :: PaddedAt(s, r, i)
  {
    PaddedOfParts(s, TrimStart(s), TrimEnd(TrimStart(s)));
    TrimEnd(TrimStart(s))
  }

  /** Cutting white space off the front and then off the back leaves a padded part. */
  lemma PaddedOfParts(s: string, t: string, r: string)
    requires |t| <= |s| && t == s[|s| - |t|..]
    requires forall k :: 0 <= k < |s| - |t| ==> IsSpace(s[k])
    requires |r| <= |t| && r == t[..|r|]
    requires forall k :: |r| <= k < |t| ==> IsSpace(t[k])
    ensures PaddedAt(s, r, |s| - |t|)
  {
    var i := |s| - |t|;
    assert r == s[i..i + |r|];
    forall k | i + |r| <= k < |s|
      ensures IsSpace(s[k])
    {
      assert s[k] == t[k - i];
    }
  }

  function LowerAscii(c: char): (r: char)
    ensures 'A' <= c <= 'Z' ==> 'a' <= r <= 'z'
    ensures !('A' <= c <= 'Z') ==> r == c
  {
    if 'A' <= c <= 'Z' then (c as int - 'A' as int + 'a' as int) as char else c
  }

  function LowerAsciiString(s: string): (r: string)
    ensures |r| == |s|
    ensures forall i :: 0 <= i < |s| ==> r[i] == LowerAscii(s[i])
  {
    if s == [] then [] else [LowerAscii(s[0])] + LowerAsciiString(s[1..])
  }

  /** `needle` occurs in `hay` at position `i`. */
  predicate OccursAt(needle: string, hay: string, i: int) {
    0 <= i && i + |needle| <= |hay| && hay[i..i + |needle|] == needle
  }

  /** Case-insensitive (ASCII) substring test: what `new RegExp(pattern, 'i')` matches
      when the pattern holds no regular-expression metacharacters. */
  predicate ContainsIgnoringCase(hay: string, needle: string) {
    exists i :: 0 <= i <= |hay| - |needle| && OccursAt(LowerAsciiString(needle), LowerAsciiString(hay), i)
  }

  lemma ContainsSelf(s: string)
    ensures ContainsIgnoringCase(s, s)
  {
    assert OccursAt(LowerAsciiString(s), LowerAsciiString(s), 0);
  }

  // ---------------------------------------------------------------------------
  // Request bodies

  /** One validator: its message when it fails, nothing when it passes. */
  function Check(fails: bool, message: string): (errs: seq<string>)
    ensures |errs| == (if fails then 1 else 0)
    ensures fails ==> errs == [message]
  {
    if fails then [message] else []
  }

  /** A present field that is empty once trimmed: what an optional `trim().notEmpty()` refuses. */
  predicate Blank(s: Option<string>) {
    s.Some? && Trim(s.value) == ""
  }

  /** A field after `doc[field] = req.body[field]` when the field is present. */
  function Overlay<T>(current: T, given: Option<T>): (r: T)
    ensures given.None? ==> r == current
    ensures given.Some? ==> r == given.value
  {
    if given.Some? then given.value else current
  }

  function TrimmedOption(s: Option<string>): (r: Option<string>)
    ensures s.None? <==> r.None?
    ensures s.Some? ==> r.value == Trim(s.value)
  {
    if s.Some? then Some(Trim(s.value)) else None
  }

  /** A text field after `doc[field] = req.body[field]` with a trimmed body field. */
  function OverlayTrimmed(current: string, given: Option<string>): (r: string)
    ensures given.None? ==> r == current
    ensures given.Some? ==> r == Trim(given.value)
  {
    if given.Some? then Trim(given.value) else current
  }
}
