/** Normalization of ids and counters, shared by the operation graph and the chat graph. */
module Ids {
  import opened Orders

  /** The characters removed by `String.prototype.trim`. */
  predicate IsSpace(c: char) {
    var u := c as int;
    || 0x09 <= u <= 0x0D || u == 0x20 || u == 0xA0 || u == 0x1680 || 0x2000 <= u <= 0x200A
    || u == 0x2028 || u == 0x2029 || u == 0x202F || u == 0x205F || u == 0x3000 || u == 0xFEFF
  }

  function TrimStart(s: string): string {
    if s != [] && IsSpace(s[0]) then TrimStart(s[1..]) else s
  }

  function TrimEnd(s: string): string {
    if s != [] && IsSpace(s[|s| - 1]) then TrimEnd(s[..|s| - 1]) else s
  }

  function Trim(s: string): string {
    TrimEnd(TrimStart(s))
  }

  ghost predicate Trimmed(s: string) {
    s == [] || (!IsSpace(s[0]) && !IsSpace(s[|s| - 1]))
  }

  lemma {:induction false} TrimStartClean(s: string)
    ensures var r := TrimStart(s); r == [] || !IsSpace(r[0])
  {
    if s != [] && IsSpace(s[0]) {
      TrimStartClean(s[1..]);
    }
  }

  lemma {:induction false} TrimEndClean(s: string)
    requires s == [] || !IsSpace(s[0])
    ensures Trimmed(TrimEnd(s))
  {
    if s != [] && IsSpace(s[|s| - 1]) {
      TrimEndClean(s[..|s| - 1]);
    }
  }

  /** Trimming yields a string that trimming leaves alone. */
  lemma TrimIdempotent(s: string)
    ensures Trimmed(Trim(s)) && Trim(Trim(s)) == Trim(s)
  {
    TrimStartClean(s);
    TrimEndClean(TrimStart(s));
  }

  /** Trims, drops blanks, keeps the first copy of each id: a JavaScript `Set` is a repetition-free list. */
  function NormalizeIds(values: seq<string>): (r: seq<string>)
    ensures Distinct(r)
  {
    if values == [] then [] else
      var r := NormalizeIds(values[..|values| - 1]);
      var id := Trim(values[|values| - 1]);
      if id == "" || id in r then r else r + [id]
  }

  lemma {:induction false} NormalizeIdsElems(values: seq<string>)
    ensures forall p :: p in NormalizeIds(values) <==> p != "" && exists v :: v in values && Trim(v) == p
  {
    if values != [] {
      var init, last := values[..|values| - 1], values[|values| - 1];
      NormalizeIdsElems(init);
      assert values == init + [last];
      assert last in values;
      assert forall v :: v in values <==> v in init || v == last;
    }
  }

  ghost predicate NormalForm(ids: seq<string>) {
    Distinct(ids) && forall p :: p in ids ==> p != "" && Trim(p) == p
  }

  lemma {:induction false} NormalizeIdsFixed(ids: seq<string>)
    requires NormalForm(ids)
    ensures NormalizeIds(ids) == ids
  {
    if ids != [] {
      var init, last := ids[..|ids| - 1], ids[|ids| - 1];
      assert ids == init + [last];
      assert last in ids && forall p :: p in init ==> p in ids;
      NormalizeIdsFixed(init);
    }
  }

  lemma NormalizeIdsIdempotent(values: seq<string>)
    ensures NormalForm(NormalizeIds(values))
    ensures NormalizeIds(NormalizeIds(values)) == NormalizeIds(values)
  {
    NormalizeIdsElems(values);
    forall p | p in NormalizeIds(values) ensures p != "" && Trim(p) == p {
      var v :| v in values && Trim(v) == p;
      TrimIdempotent(v);
    }
    NormalizeIdsFixed(NormalizeIds(values));
  }

  /** `Math.max(0, Math.trunc(x))`. */
  function Counter(x: real): nat {
    if x <= 0.0 then 0 else x.Floor
  }

  lemma CounterIdempotent(x: real)
    ensures Counter(Counter(x) as real) == Counter(x)
  {
  }

  // ---------- What they keep ----------

  /** t is s without the spaces around it. */
  ghost predicate StripOf(t: string, s: string) {
    exists i, j :: 0 <= i <= j <= |s| && t == s[i..j] && Stripped(s, i, j)
  }

  /** Everything outside i..j is space, and neither end of it is. */
  predicate Stripped(s: string, i: nat, j: nat)
    requires i <= j <= |s|
  {
    && (forall k :: 0 <= k < i ==> IsSpace(s[k])) && (forall k :: j <= k < |s| ==> IsSpace(s[k]))
    && (i < j ==> !IsSpace(s[i]) && !IsSpace(s[j - 1]))
  }

  lemma {:induction false} TrimStartAt(s: string) returns (i: nat)
    ensures i <= |s| && TrimStart(s) == s[i..] && (forall k :: 0 <= k < i ==> IsSpace(s[k])) && (i < |s| ==> !IsSpace(s[i]))
  {
    i := 0;
    if s != [] && IsSpace(s[0]) {
      var r := TrimStartAt(s[1..]);
      i := r + 1;
      assert s[1..][r..] == s[i..];
      forall k | 0 <= k < i ensures IsSpace(s[k]) { assert k > 0 ==> s[1..][k - 1] == s[k]; }
      assert i < |s| ==> s[1..][r] == s[i];
    }
  }

  lemma {:induction false} TrimEndAt(s: string) returns (j: nat)
    ensures j <= |s| && TrimEnd(s) == s[..j] && (forall k :: j <= k < |s| ==> IsSpace(s[k])) && (0 < j ==> !IsSpace(s[j - 1]))
  {
    j := |s|;
    if s != [] && IsSpace(s[|s| - 1]) {
      j := TrimEndAt(s[..|s| - 1]);
      assert s[..|s| - 1][..j] == s[..j];
    }
  }

  /** Trimming takes away the spaces around a string and nothing else. */
  lemma TrimExactly(s: string, t: string)
    ensures StripOf(t, s) <==> t == Trim(s)
  {
    var i := TrimStartAt(s);
    var j := TrimEndAt(s[i..]);
    assert Trim(s) == s[i..i + j];
    forall k | i + j <= k < |s| ensures IsSpace(s[k]) { assert s[i..][k - i] == s[k]; }
    assert 0 < j ==> s[i..][j - 1] == s[i + j - 1];
    assert Stripped(s, i, i + j);
    if StripOf(t, s) {
      var a, b :| 0 <= a <= b <= |s| && t == s[a..b] && Stripped(s, a, b);
      StrippedOnce(s, a, b, i, i + j);
    }
  }

  lemma StrippedOnce(s: string, a: nat, b: nat, i: nat, j: nat)
    requires a <= b <= |s| && i <= j <= |s| && Stripped(s, a, b) && Stripped(s, i, j)
    ensures s[a..b] == s[i..j]
  {
    assert a < b ==> i <= a < j;
    assert i < j ==> a <= i < b;
  }

  /** A counter is the whole part of a positive number, and zero below one. */
  lemma CounterExactly(x: real)
    ensures x < 1.0 ==> Counter(x) == 0
    ensures x >= 0.0 ==> Counter(x) as real <= x < Counter(x) as real + 1.0
  {
  }

  /** Kept ids stand in the order in which they first came. */
  lemma {:induction false} NormalizeIdsOrder(values: seq<string>, i: nat, j: nat) returns (a: nat)
    requires i < j < |NormalizeIds(values)|
    ensures a < |values| && Trim(values[a]) == NormalizeIds(values)[i]
    ensures forall b :: 0 <= b <= a ==> Trim(values[b]) != NormalizeIds(values)[j]
  {
    var n := |values| - 1;
    var r := NormalizeIds(values[..n]);
    if j < |r| {
      a := NormalizeIdsOrder(values[..n], i, j);
    } else {
      NormalizeIdsElems(values[..n]);
      assert r[i] in r;
      var v :| v in values[..n] && Trim(v) == r[i];
      a :| 0 <= a < n && values[a] == v;
      forall b | 0 <= b <= a ensures Trim(values[b]) != NormalizeIds(values)[j] {
        assert values[b] in values[..n] by { assert values[..n][b] == values[b]; }
      }
    }
    hide Trim;
  }
}
