/**
 * The string operations the bot relies on: `str.lower()` for case-insensitive
 * names, and `str.split()` for cutting a command line into arguments.
 */
module Text {

  /** ASCII lower-casing of one character; every other character is kept. */
  function LowerChar(c: char): char {
    if 'A' <= c <= 'Z' then (c as int + 32) as char else c
  }

  /** `s.lower()`, restricted to ASCII letters. */
  function Lower(s: string): (r: string)
    ensures |r| == |s|
    ensures forall i :: 0 <= i < |s| ==> r[i] == LowerChar(s[i])
  {
    seq(|s|, i requires 0 <= i < |s| => LowerChar(s[i]))
  }

  /** Two names denote the same record when their lower-cased forms agree. */
  predicate SameName(a: string, b: string) {
    Lower(a) == Lower(b)
  }

  lemma LowerIdempotent(s: string)
    ensures Lower(Lower(s)) == Lower(s)
  {
  }

  /** The characters Python's `str.split()` treats as separators. */
  predicate IsSpace(c: char) {
    var n := c as int;
    n == 32 || 9 <= n <= 13 || 28 <= n <= 31 || n == 0x85 || n == 0xA0 || n == 0x1680
    || 0x2000 <= n <= 0x200A || n == 0x2028 || n == 0x2029 || n == 0x202F || n == 0x205F
    || n == 0x3000
  }

  /** A token `str.split()` can produce: non-empty, with no separator in it. */
  predicate IsWord(w: string) {
    |w| > 0 && forall i :: 0 <= i < |w| ==> !IsSpace(w[i])
  }

  /** Lower-casing never turns a separator into a non-separator, or back. */
  lemma LowerKeepsSpaces(s: string)
    ensures forall i :: 0 <= i < |s| ==> (IsSpace(Lower(s)[i]) <==> IsSpace(s[i]))
  {
  }

  /** The end of the token that starts at `i`: the next separator, or the end of `s`. */
  function WordEnd(s: string, i: nat): (e: nat)
    requires i <= |s|
    ensures i <= e <= |s|
    ensures forall j :: i <= j < e ==> !IsSpace(s[j])
    ensures e < |s| ==> IsSpace(s[e])
    decreases |s| - i
  {
    if i == |s| || IsSpace(s[i]) then i else WordEnd(s, i + 1)
  }

  /** `s.split()`: the maximal runs of non-separators, in order. */
  function Split(s: string): (r: seq<string>)
    ensures forall k :: 0 <= k < |r| ==> IsWord(r[k])
    decreases |s|
  {
    if |s| == 0 then []
    else if IsSpace(s[0]) then Split(s[1..])
    else
      var e := WordEnd(s, 0);
      [s[..e]] + Split(s[e..])
  }

  /** The first token of `w + rest`, when `w` is a word and `rest` is empty or starts with a separator. */
  lemma {:induction false} SplitFirstWord(w: string, rest: string)
    requires IsWord(w)
    requires rest == [] || IsSpace(rest[0])
    ensures Split(w + rest) == [w] + Split(rest)
  {
    var s := w + rest;
    var e := WordEnd(s, 0);
    assert forall j :: 0 <= j < |w| ==> s[j] == w[j];
    assert |rest| > 0 ==> s[|w|] == rest[0];
    assert e == |w|;
    assert s[..e] == w;
    assert s[e..] == rest;
  }

  /** A run of separators, possibly empty. */
  predicate IsGap(g: string) {
    forall i :: 0 <= i < |g| ==> IsSpace(g[i])
  }

  /** Leading separators are skipped. */
  lemma {:induction false} SplitSkipsGap(g: string, s: string)
    requires IsGap(g)
    ensures Split(g + s) == Split(s)
  {
    if |g| > 0 {
      assert (g + s)[0] == g[0];
      assert (g + s)[1..] == g[1..] + s;
      SplitSkipsGap(g[1..], s);
    } else {
      assert g + s == s;
    }
  }

  /** The text `gs[0] + ws[0] + gs[1] + ... + ws[n-1] + gs[n]`: words with separator runs around them. */
  function Interleave(gs: seq<string>, ws: seq<string>): string
    requires |gs| == |ws| + 1
    decreases |ws|
  {
    if |ws| == 0 then gs[0] else gs[0] + ws[0] + Interleave(gs[1..], ws[1..])
  }

  /**
   * `split()` on any text made of words and runs of separators gives back the
   * words: runs between words may be of any length and mix any separators,
   * and the runs at either end may also be empty.
   */
  lemma {:induction false} SplitInterleave(gs: seq<string>, ws: seq<string>)
    requires |gs| == |ws| + 1
    requires forall k :: 0 <= k < |ws| ==> IsWord(ws[k])
    requires forall k :: 0 <= k < |gs| ==> IsGap(gs[k])
    requires forall k :: 0 < k < |ws| ==> |gs[k]| > 0
    ensures Split(Interleave(gs, ws)) == ws
  {
    if |ws| == 0 {
      SplitSkipsGap(gs[0], "");
      assert gs[0] + "" == gs[0];
    } else {
      var rest := Interleave(gs[1..], ws[1..]);
      SplitInterleave(gs[1..], ws[1..]);
      if |ws| > 1 {
        assert rest == gs[1] + ws[1] + Interleave(gs[2..], ws[2..]);
        assert rest[0] == gs[1][0];
      }
      SplitFirstWord(ws[0], rest);
      SplitSkipsGap(gs[0], ws[0] + rest);
      assert gs[0] + ws[0] + rest == gs[0] + (ws[0] + rest);
      assert [ws[0]] + ws[1..] == ws;
    }
  }
}
