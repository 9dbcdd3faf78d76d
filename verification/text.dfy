/** The two string-splitting primitives the configuration reader relies on:
    splitting a text at every separator (Rust's `str::split`) and splitting
    it at the first separator only (Rust's `str::splitn(2, _)`). Strings are
    sequences of characters; no trimming or normalisation happens anywhere. */
module Text {

  import opened Results

  /** Position of the first occurrence of `c` in `s`. */
  function FirstIndex(s: string, c: char): (i: nat)
    requires c in s
    ensures i < |s| && s[i] == c
    ensures c !in s[..i]
  {
    if s[0] == c then 0
    else
      var j := FirstIndex(s[1..], c);
      assert s[..j + 1] == [s[0]] + s[1..][..j];
      j + 1
  }

  /** The first occurrence of `c` in `a + [c] + b` is the one between them
      whenever `a` itself holds no `c`. */
  lemma FirstIndexAfterPrefix(a: string, c: char, b: string)
    requires c !in a
    ensures c in a + [c] + b
    ensures FirstIndex(a + [c] + b, c) == |a|
  {
    var s := a + [c] + b;
    assert s[|a|] == c;
    var i := FirstIndex(s, c);
    assert forall j :: 0 <= j < |a| ==> s[j] == a[j];
    assert i <= |a| ==> s[..i] == a[..i];
  }

  /** Cutting a text at its first `c` is unambiguous: two ways of writing
      `s` as a `c`-free prefix, a `c` and a rest are the same way. */
  lemma PrefixBeforeSeparatorUnique(a: string, x: string, b: string, y: string, c: char)
    requires c !in a && c !in b
    requires a + [c] + x == b + [c] + y
    ensures a == b && x == y
  {
    var s := a + [c] + x;
    assert forall j :: 0 <= j < |a| ==> s[j] == a[j];
    assert forall j :: 0 <= j < |b| ==> s[j] == b[j];
    assert s[|a|] == c && s[|b|] == c;
    if |a| != |b| {
      assert false;
    }
    assert s[..|a|] == a && s[|a| + 1..] == x;
    assert s[..|b|] == b && s[|b| + 1..] == y;
  }

  /** Glues the pieces back together with `c` between consecutive pieces. */
  function Join(pieces: seq<string>, c: char): string
  {
    if |pieces| == 0 then []
    else if |pieces| == 1 then pieces[0]
    else pieces[0] + [c] + Join(pieces[1..], c)
  }

  /** Splits `s` at every `c`, like Rust's `str::split(c)`: there is always
      at least one piece (the empty text gives one empty piece), no piece
      contains `c`, and joining the pieces with `c` gives `s` back. */
  function Split(s: string, c: char): (pieces: seq<string>)
    ensures |pieces| >= 1
    ensures forall k :: 0 <= k < |pieces| ==> c !in pieces[k]
    ensures Join(pieces, c) == s
    decreases |s|
  {
    if c in s then
      var i := FirstIndex(s, c);
      var rest := Split(s[i + 1..], c);
      assert s == s[..i] + [c] + s[i + 1..];
      [s[..i]] + rest
    else
      [s]
  }

  /** Split is the only way to cut a text into separator-free pieces:
      splitting the join of such pieces gives exactly those pieces back. */
  lemma {:induction false} SplitJoin(pieces: seq<string>, c: char)
    requires |pieces| >= 1
    requires forall k :: 0 <= k < |pieces| ==> c !in pieces[k]
    ensures Split(Join(pieces, c), c) == pieces
    decreases |pieces|
  {
    if |pieces| == 1 {
      assert c !in pieces[0];
    } else {
      var rest := pieces[1..];
      assert forall k :: 0 <= k < |rest| ==> c !in rest[k] by {
        forall k | 0 <= k < |rest| ensures c !in rest[k] {
          assert rest[k] == pieces[k + 1];
        }
      }
      SplitJoin(rest, c);
      var s := Join(pieces, c);
      assert c !in pieces[0];
      FirstIndexAfterPrefix(pieces[0], c, Join(rest, c));
      assert s[|pieces[0]| + 1..] == Join(rest, c);
      assert s[..|pieces[0]|] == pieces[0];
    }
  }

  /** Splits `s` at the first `c` only, like Rust's `str::splitn(2, c)`:
      one piece (the whole text) when there is no `c`, otherwise the text
      before the first `c` and everything after it, which may contain more
      `c`s. */
  function SplitOnce(s: string, c: char): (pieces: seq<string>)
    ensures 1 <= |pieces| <= 2
    ensures |pieces| == 2 <==> c in s
    ensures c !in pieces[0]
    ensures Join(pieces, c) == s
  {
    if c in s then
      var i := FirstIndex(s, c);
      assert s == s[..i] + [c] + s[i + 1..];
      [s[..i], s[i + 1..]]
    else
      [s]
  }

  /** The `k`-th item a piece iterator yields, or `None` once it is exhausted
      (the iterator's `next()`). */
  function Nth(pieces: seq<string>, k: nat): (r: Option<string>)
  {
    if k < |pieces| then Some(pieces[k]) else None
  }
}
