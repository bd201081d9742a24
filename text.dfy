/**
 * The two string operations the chat handler relies on, over `seq<char>`:
 * Python's `sep.join(parts)` and, as its inverse, `s.split("\n")`.
 */
module Text {

  /** The line separator the handler joins system messages with. */
  const Newline: string := "\n"

  /** `sep.join(parts)`: the parts in order, with `sep` between neighbours. */
  function Join(sep: string, parts: seq<string>): (r: string)
    ensures |parts| == 0 ==> r == ""
    ensures |parts| == 1 ==> r == parts[0]
    ensures |parts| >= 2 ==> |r| >= |parts[0]| + |sep| + |parts[|parts| - 1]|
  {
    if |parts| == 0 then ""
    else if |parts| == 1 then parts[0]
    else Join(sep, parts[..|parts| - 1]) + sep + parts[|parts| - 1]
  }

  /** True when `s` contains no newline character. */
  predicate NoNewline(s: string) {
    forall i :: 0 <= i < |s| ==> s[i] != '\n'
  }

  /** Where the piece that `s[..n]` ends with begins: just after the last
      newline before `n`, or 0 when there is none. */
  function PieceStart(s: string, n: nat): (r: nat)
    requires n <= |s|
    ensures r <= n
  {
    if n == 0 then 0
    else if s[n - 1] == '\n' then n
    else PieceStart(s, n - 1)
  }

  /** The pieces of `s[..n]` that a newline has already closed, in order. */
  function ClosedPieces(s: string, n: nat): (r: seq<string>)
    requires n <= |s|
    ensures |r| <= n
  {
    if n == 0 then []
    else if s[n - 1] == '\n' then ClosedPieces(s, n - 1) + [s[PieceStart(s, n - 1)..n - 1]]
    else ClosedPieces(s, n - 1)
  }

  /** `s.split("\n")`: the closed pieces followed by the text after the last
      newline; never empty, since "" splits into [""]. */
  function SplitLines(s: string): (r: seq<string>)
    ensures |r| >= 1
    ensures NoNewline(r[|r| - 1])
  {
    NoNewlineAfterPieceStart(s, |s|);
    ClosedPieces(s, |s|) + [s[PieceStart(s, |s|)..]]
  }

  /** No newline lies between where the last piece starts and `n`. */
  lemma {:induction false} NoNewlineAfterPieceStart(s: string, n: nat)
    requires n <= |s|
    ensures NoNewline(s[PieceStart(s, n)..n])
  {
    if n > 0 && s[n - 1] != '\n' {
      NoNewlineAfterPieceStart(s, n - 1);
      assert s[PieceStart(s, n)..n] == s[PieceStart(s, n - 1)..n - 1] + [s[n - 1]];
    }
  }

  /** Joining with a non-empty separator yields "" exactly when there is
      nothing to join or a single empty part. */
  lemma JoinEmptyIff(sep: string, parts: seq<string>)
    requires sep != ""
    ensures Join(sep, parts) == "" <==> |parts| == 0 || (|parts| == 1 && parts[0] == "")
  {
  }

  /** Splitting depends only on the characters split. */
  lemma {:induction false} SplitAgree(s: string, t: string, n: nat)
    requires n <= |s| && n <= |t|
    requires forall i :: 0 <= i < n ==> s[i] == t[i]
    ensures PieceStart(s, n) == PieceStart(t, n)
    ensures ClosedPieces(s, n) == ClosedPieces(t, n)
  {
    if n > 0 {
      SplitAgree(s, t, n - 1);
      assert s[PieceStart(s, n - 1)..n - 1] == t[PieceStart(t, n - 1)..n - 1];
    }
  }

  /** Newline-free characters close no piece and start none. */
  lemma {:induction false} SplitPlain(s: string, m: nat, k: nat)
    requires m + k <= |s|
    requires forall i :: m <= i < m + k ==> s[i] != '\n'
    ensures PieceStart(s, m + k) == PieceStart(s, m)
    ensures ClosedPieces(s, m + k) == ClosedPieces(s, m)
  {
    if k > 0 {
      SplitPlain(s, m, k - 1);
    }
  }

  /** A newline followed by newline-free text adds exactly one piece. */
  lemma SplitLinesNewPiece(x: string, p: string)
    requires NoNewline(p)
    ensures SplitLines(x + Newline + p) == SplitLines(x) + [p]
  {
    var s := x + Newline + p;
    SplitAgree(s, x, |x|);
    assert s[|x|] == '\n';
    assert s[PieceStart(x, |x|)..|x|] == x[PieceStart(x, |x|)..];
    assert ClosedPieces(s, |x| + 1) == SplitLines(x);
    SplitPlain(s, |x| + 1, |p|);
    assert s[|x| + 1..] == p;
  }

  /** Splitting at newlines undoes the newline join of newline-free parts. */
  lemma {:induction false} SplitLinesJoin(parts: seq<string>)
    requires |parts| >= 1
    requires forall k :: 0 <= k < |parts| ==> NoNewline(parts[k])
    ensures SplitLines(Join(Newline, parts)) == parts
  {
    if |parts| == 1 {
      var p := parts[0];
      SplitPlain(p, 0, |p|);
      assert p[0..] == p;
    } else {
      var init, last := parts[..|parts| - 1], parts[|parts| - 1];
      assert forall k :: 0 <= k < |init| ==> NoNewline(init[k]);
      SplitLinesJoin(init);
      SplitLinesNewPiece(Join(Newline, init), last);
    }
  }
}
