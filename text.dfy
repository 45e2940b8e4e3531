/**
 * String primitives of the renamer: substring search, Python's
 * `str.replace(old, new, 1)`, and `str.split(sep)` with its inverse.
 */
module Text {

  datatype Option<+T> = None | Some(value: T)

  /** `pat` occurs in `s` starting at index `j`. */
  predicate OccursAt(s: string, pat: string, j: nat) {
    j + |pat| <= |s| && s[j..j + |pat|] == pat
  }

  /** The first occurrence of `pat` in `s` at or after index `k`. */
  function IndexFrom(s: string, pat: string, k: nat): Option<nat>
    requires k <= |s|
    decreases |s| - k
  {
    if k + |pat| > |s| then None
    else if s[k..k + |pat|] == pat then Some(k)
    else IndexFrom(s, pat, k + 1)
  }

  /** The search finds the first occurrence at or after `k`, or reports that there is none. */
  lemma {:induction false} IndexFromSpec(s: string, pat: string, k: nat)
    requires k <= |s|
    ensures var r := IndexFrom(s, pat, k);
            (r.Some? ==> k <= r.value && OccursAt(s, pat, r.value)) &&
            (r.Some? ==> forall j: nat :: k <= j < r.value ==> !OccursAt(s, pat, j)) &&
            (r.None? ==> forall j: nat :: k <= j ==> !OccursAt(s, pat, j))
    decreases |s| - k
  {
    if k + |pat| <= |s| && s[k..k + |pat|] != pat {
      IndexFromSpec(s, pat, k + 1);
    }
  }

  /** The first occurrence of `pat` in `s`; the empty pattern occurs at 0. */
  function IndexOf(s: string, pat: string): Option<nat> {
    IndexFrom(s, pat, 0)
  }

  /** `IndexOf` finds the first occurrence, and finds one whenever there is one. */
  lemma IndexOfSpec(s: string, pat: string)
    ensures var r := IndexOf(s, pat);
            (r.Some? ==> OccursAt(s, pat, r.value)) &&
            (r.Some? ==> forall j: nat :: j < r.value ==> !OccursAt(s, pat, j)) &&
            (r.None? <==> forall j: nat :: !OccursAt(s, pat, j))
  {
    IndexFromSpec(s, pat, 0);
  }

  /** Python's substring test `pat in s`. */
  predicate Contains(s: string, pat: string) {
    IndexOf(s, pat).Some?
  }

  /** Python's slice `s[k:]`, which is empty when `k` is past the end. */
  function Drop(s: string, k: nat): (r: string)
    ensures |r| == if k <= |s| then |s| - k else 0
    ensures k <= |s| ==> s[..k] + r == s
  {
    if k <= |s| then s[k..] else []
  }

  /**
   * Python's `s.replace(pat, repl, 1)`: only the first occurrence of `pat`
   * is replaced; without one the string is returned unchanged.
   */
  function ReplaceFirst(s: string, pat: string, repl: string): string {
    match IndexOf(s, pat)
    case None => s
    case Some(i) =>
      IndexOfSpec(s, pat);
      s[..i] + repl + s[i + |pat|..]
  }

  /** Without an occurrence nothing changes; otherwise the first occurrence is spliced out. */
  lemma ReplaceFirstSpec(s: string, pat: string, repl: string)
    ensures !Contains(s, pat) ==> ReplaceFirst(s, pat, repl) == s
    ensures forall i: nat :: OccursAt(s, pat, i) && (forall j: nat :: j < i ==> !OccursAt(s, pat, j))
              ==> ReplaceFirst(s, pat, repl) == s[..i] + repl + s[i + |pat|..]
  {
    IndexOfSpec(s, pat);
    match IndexOf(s, pat)
    case None =>
    case Some(i) => FirstOccurrenceUnique(s, pat, i);
  }

  /** Replacing at a known first occurrence. */
  lemma ReplaceFirstAt(s: string, pat: string, repl: string, i: nat)
    requires OccursAt(s, pat, i)
    requires forall j: nat :: j < i ==> !OccursAt(s, pat, j)
    ensures ReplaceFirst(s, pat, repl) == s[..i] + repl + s[i + |pat|..]
  {
    IndexOfSpec(s, pat);
    assert IndexOf(s, pat) == Some(i);
  }

  /** Two first occurrences are the same occurrence. */
  lemma FirstOccurrenceUnique(s: string, pat: string, i: nat)
    requires OccursAt(s, pat, i)
    requires forall j: nat :: j < i ==> !OccursAt(s, pat, j)
    ensures forall i': nat :: OccursAt(s, pat, i') && (forall j: nat :: j < i' ==> !OccursAt(s, pat, j)) ==> i' == i
  {
  }

  /** An occurrence inside a prefix of `s` is an occurrence in `s`. */
  lemma OccursInPrefix(s: string, pat: string, i: nat, j: nat)
    requires i <= |s| && OccursAt(s[..i], pat, j)
    ensures OccursAt(s, pat, j)
  {
    assert s[..i][j..j + |pat|] == s[j..j + |pat|];
  }

  /** Python's `s.split(sep)` for a non-empty separator. */
  function Split(s: string, sep: string): (pieces: seq<string>)
    requires |sep| > 0
    ensures |pieces| >= 1
    decreases |s|
  {
    match IndexOf(s, sep)
    case None => [s]
    case Some(i) =>
      IndexOfSpec(s, sep);
      [s[..i]] + Split(s[i + |sep|..], sep)
  }

  /** No piece of a split contains the separator. */
  lemma {:induction false} SplitPiecesFree(s: string, sep: string)
    requires |sep| > 0
    ensures forall k :: 0 <= k < |Split(s, sep)| ==> !Contains(Split(s, sep)[k], sep)
    decreases |s|
  {
    IndexOfSpec(s, sep);
    var r := IndexOf(s, sep);
    if r.Some? {
      var i := r.value;
      SplitPiecesFree(s[i + |sep|..], sep);
      SplitStep(s, sep, i);
      assert !Contains(s[..i], sep) by {
        forall j: nat | OccursAt(s[..i], sep, j) ensures false {
          OccursInPrefix(s, sep, i, j);
        }
        IndexOfSpec(s[..i], sep);
      }
    }
  }

  /** Python's `sep.join(pieces)`. */
  function Join(pieces: seq<string>, sep: string): string
    requires |pieces| >= 1
  {
    if |pieces| == 1 then pieces[0] else pieces[0] + sep + Join(pieces[1..], sep)
  }

  /** Joining the pieces of a split with the same separator gives the string back. */
  lemma {:induction false} SplitJoin(s: string, sep: string)
    requires |sep| > 0
    ensures Join(Split(s, sep), sep) == s
    decreases |s|
  {
    IndexOfSpec(s, sep);
    var r := IndexOf(s, sep);
    if r.Some? {
      var i := r.value;
      var rest := s[i + |sep|..];
      SplitJoin(rest, sep);
      SplitStep(s, sep, i);
      JoinCons(s[..i], Split(rest, sep), sep);
    }
  }

  /**
   * Every separator a split takes is the leftmost one after the previous
   * piece: in `piece + sep` the separator first occurs right after the piece.
   * With `SplitJoin` this fixes the pieces even for a separator such as ",,"
   * that overlaps itself.
   */
  lemma {:induction false} SplitLeftmost(s: string, sep: string)
    requires |sep| > 0
    ensures var p := Split(s, sep);
            forall k :: 0 <= k < |p| - 1 ==> IndexOf(p[k] + sep, sep) == Some(|p[k]|)
    decreases |s|
  {
    var r := IndexOf(s, sep);
    if r.Some? {
      var i := r.value;
      SplitStep(s, sep, i);
      var rest := s[i + |sep|..];
      SplitLeftmost(rest, sep);
      PieceThenSeparator(s, sep, i);
      var p := Split(s, sep);
      assert p == [s[..i]] + Split(rest, sep);
      forall k | 0 < k < |p| - 1 ensures IndexOf(p[k] + sep, sep) == Some(|p[k]|) {
        assert p[k] == Split(rest, sep)[k - 1];
      }
    }
  }

  /** The piece before the first separator, followed by the separator, has its first separator there. */
  lemma PieceThenSeparator(s: string, sep: string, i: nat)
    requires |sep| > 0 && IndexOf(s, sep) == Some(i)
    ensures i <= |s| && IndexOf(s[..i] + sep, sep) == Some(i)
  {
    IndexOfSpec(s, sep);
    assert OccursAt(s, sep, i);
    var u := s[..i] + sep;
    assert u == s[..i + |sep|];
    assert OccursAt(u, sep, i);
    forall j: nat | j < i ensures !OccursAt(u, sep, j) {
      if OccursAt(u, sep, j) {
        OccursInPrefix(s, sep, i + |sep|, j);
      }
    }
    IndexOfSpec(u, sep);
  }

  /** One step of `Split` at the first occurrence `i` of the separator. */
  lemma SplitStep(s: string, sep: string, i: nat)
    requires |sep| > 0 && IndexOf(s, sep) == Some(i)
    ensures i + |sep| <= |s|
    ensures Split(s, sep) == [s[..i]] + Split(s[i + |sep|..], sep)
    ensures s == s[..i] + sep + s[i + |sep|..]
  {
    IndexOfSpec(s, sep);
    assert s[i..i + |sep|] == sep;
    assert s == s[..i] + s[i..i + |sep|] + s[i + |sep|..];
  }

  lemma JoinCons(p: string, ps: seq<string>, sep: string)
    requires |ps| >= 1
    ensures Join([p] + ps, sep) == p + sep + Join(ps, sep)
  {
    assert ([p] + ps)[1..] == ps;
  }

  /** The first piece of `s.split(",")` is empty exactly when `s` is empty or starts with a comma. */
  lemma FirstCommaPiece(s: string)
    ensures |Split(s, ",")[0]| > 0 <==> |s| > 0 && s[0] != ','
  {
    IndexOfSpec(s, ",");
    if |s| > 0 && s[0] == ',' {
      assert OccursAt(s, ",", 0);
      assert IndexOf(s, ",") == Some(0);
    } else if IndexOf(s, ",").Some? {
      var i := IndexOf(s, ",").value;
      assert s[i..i + 1][0] == ',';
    }
  }
}
