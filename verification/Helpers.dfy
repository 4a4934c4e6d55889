/** Options, results and the string helpers that both control planes share. */
module Helpers {
  datatype Option<T> = None | Some(value: T)
  datatype Error = Validation | NotFound | ExpiredError | Forbidden | Unauthorized | InvalidState | AlreadyClaimed | Internal
  datatype Result<T> = Ok(value: T) | Err(error: Error)

  /** `strings.TrimSpace`. */
  predicate IsSpace(c: char) {
    var u := c as int;
    || 0x09 <= u <= 0x0D || u == 0x20 || u == 0x85 || u == 0xA0 || u == 0x1680 || 0x2000 <= u <= 0x200A
    || u == 0x2028 || u == 0x2029 || u == 0x202F || u == 0x205F || u == 0x3000
  }

  function TrimSpace(s: string): string {
    if s != [] && IsSpace(s[0]) then TrimSpace(s[1..])
    else if s != [] && IsSpace(s[|s| - 1]) then TrimSpace(s[..|s| - 1])
    else s
  }

  /** Trimming cuts off white space at both ends, all of it and nothing else. */
  lemma {:induction false} TrimSpaceExactly(s: string) returns (i: nat, j: nat)
    ensures i <= j <= |s| && TrimSpace(s) == s[i..j]
    ensures forall k :: 0 <= k < i || j <= k < |s| ==> IsSpace(s[k])
    ensures i < j ==> !IsSpace(s[i]) && !IsSpace(s[j - 1])
  {
    hide IsSpace;
    i, j := 0, |s|;
    if s != [] && IsSpace(s[0]) {
      i, j := TrimSpaceExactly(s[1..]);
      i, j := i + 1, j + 1;
    } else if s != [] && IsSpace(s[|s| - 1]) {
      i, j := TrimSpaceExactly(s[..|s| - 1]);
    }
  }

  function ClampInt(value: int, min: int, max: int): int {
    if value < min then min else if value > max then max else value
  }
}
