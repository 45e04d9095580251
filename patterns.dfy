/** Character-level recognizers for the anchored character-class patterns `^[C]+$` used by the
    models and the schemas.

    Two readings of `$` occur in the source. The ORM validators call Python's `re.match`, where
    `$` (without MULTILINE) matches at the end of the text or just before one final newline. The
    schemas hand the pattern to pydantic, whose regex engine matches `$` only at the end. */
module Patterns {

  /** Every character of `s` is in the class. */
  predicate All(cls: char -> bool, s: string)
  {
    forall i :: 0 <= i < |s| ==> cls(s[i])
  }

  /** A character outside the class does not occur in a text of the class. */
  lemma AllExcludes(cls: char -> bool, s: string, c: char)
    requires All(cls, s) && !cls(c)
    ensures c !in s
  {
  }

  /** A character absent on both sides of position `i` occurs only at `i`. */
  lemma SoleOccurrence(s: string, i: int, c: char)
    requires 0 <= i < |s| && s[i] == c
    requires c !in s[..i] && c !in s[i + 1..]
    ensures forall k :: 0 <= k < |s| && s[k] == c ==> k == i
  {
    assert forall m :: 0 <= m < i ==> s[..i][m] == s[m];
    assert forall m :: i < m < |s| ==> s[i + 1..][m - i - 1] == s[m];
  }

  /** Python's `$`: the end of the text, or a final newline. */
  predicate PyEnd(s: string)
  {
    s == [] || s == "\n"
  }

  /** Scans `[C]*$` (Python reading) from the current position, consuming class characters. */
  function PyStarThenEnd(cls: char -> bool, s: string): (r: bool)
    decreases |s|
    ensures r <==> All(cls, s) || (|s| > 0 && s[|s| - 1] == '\n' && All(cls, s[..|s| - 1]))
  {
    if PyEnd(s) then
      assert s == "\n" ==> s[..|s| - 1] == [];
      true
    else if cls(s[0]) then
      var r := PyStarThenEnd(cls, s[1..]);
      assert |s| >= 2 ==> s[1..][..|s| - 2] == s[1..|s| - 1];
      assert r ==> All(cls, s) || (s[|s| - 1] == '\n' && All(cls, s[..|s| - 1]));
      r
    else
      assert |s| >= 2 ==> s[..|s| - 1][0] == s[0];
      false
  }

  /** `re.match(r"^[C]+$", s)` is truthy. */
  function PyMatchPlus(cls: char -> bool, s: string): (r: bool)
    ensures r <==> ((|s| > 0 && All(cls, s))
                    || (|s| >= 2 && s[|s| - 1] == '\n' && All(cls, s[..|s| - 1])))
  {
    if |s| > 0 && cls(s[0]) then
      var r := PyStarThenEnd(cls, s[1..]);
      assert |s| >= 2 ==> s[1..][..|s| - 2] == s[1..|s| - 1];
      assert r ==> (All(cls, s) || (|s| >= 2 && s[|s| - 1] == '\n' && All(cls, s[..|s| - 1])));
      r
    else
      assert |s| >= 2 ==> s[..|s| - 1][0] == s[0];
      false
  }

  /** Scans `[C]*$` with `$` matching only at the end of the text. */
  function StarThenEnd(cls: char -> bool, s: string): (r: bool)
    decreases |s|
    ensures r <==> All(cls, s)
  {
    if s == [] then true
    else if cls(s[0]) then
      var r := StarThenEnd(cls, s[1..]);
      assert All(cls, s) <==> cls(s[0]) && All(cls, s[1..]) by {
        assert forall i :: 1 <= i < |s| ==> s[i] == s[1..][i - 1];
      }
      r
    else false
  }

  /** A full match of `^[C]+$` in the pydantic reading. */
  function MatchPlus(cls: char -> bool, s: string): (r: bool)
    ensures r <==> |s| > 0 && All(cls, s)
  {
    |s| > 0 && cls(s[0]) && StarThenEnd(cls, s[1..])
  }

  /** The two readings agree on every text without a newline. */
  lemma PyMatchPlusWithoutNewline(cls: char -> bool, s: string)
    requires '\n' !in s
    ensures PyMatchPlus(cls, s) == MatchPlus(cls, s)
  {
  }

  /** A final newline is the only difference: `s + "\n"` passes Python's check exactly when `s`
      passes the strict one, for a class without the newline character. */
  lemma PyMatchPlusTrailingNewline(cls: char -> bool, s: string)
    requires !cls('\n')
    ensures PyMatchPlus(cls, s + "\n") == MatchPlus(cls, s)
  {
    var t := s + "\n";
    assert t[..|t| - 1] == s;
    if |s| > 0 && All(cls, s) {
      assert PyMatchPlus(cls, t);
    }
  }

  /** Scans `[C]*` followed by the delimiter `d` and then whatever `next` accepts, having already
      consumed one class character. Since `d` is outside the class, the run ends at the first `d`
      and no other split of the text is possible. */
  function RunThen(cls: char -> bool, d: char, next: string -> bool, s: string): bool
    decreases |s|
  {
    |s| > 0 && if cls(s[0]) then RunThen(cls, d, next, s[1..]) else s[0] == d && next(s[1..])
  }

  /** A class prefix of length `j + 1` is a class character followed by a class prefix of the tail. */
  lemma AllPrefixShift(cls: char -> bool, s: string, j: nat)
    requires j < |s|
    ensures All(cls, s[..j + 1]) <==> cls(s[0]) && All(cls, s[1..][..j])
  {
    assert s[..j + 1] == [s[0]] + s[1..][..j];
    var t := s[1..][..j];
    assert All(cls, [s[0]] + t) <==> cls(s[0]) && All(cls, t) by {
      assert forall i :: 0 <= i < |t| ==> ([s[0]] + t)[i + 1] == t[i];
    }
  }

  /** The scan above finds exactly the splits `run + [d] + rest` with `run` in the class. */
  lemma {:induction false} RunThenSplit(cls: char -> bool, d: char, next: string -> bool, s: string)
    requires !cls(d)
    decreases |s|
    ensures RunThen(cls, d, next, s) <==>
            exists j :: 0 <= j < |s| && s[j] == d && All(cls, s[..j]) && next(s[j + 1..])
  {
    if |s| > 0 {
      if cls(s[0]) {
        RunThenSplit(cls, d, next, s[1..]);
        if RunThen(cls, d, next, s) {
          var j :| 0 <= j < |s[1..]| && s[1..][j] == d && All(cls, s[1..][..j]) && next(s[1..][j + 1..]);
          assert s[j + 1] == d && s[j + 2..] == s[1..][j + 1..];
          AllPrefixShift(cls, s, j);
        }
        if exists j :: 0 <= j < |s| && s[j] == d && All(cls, s[..j]) && next(s[j + 1..]) {
          var j :| 0 <= j < |s| && s[j] == d && All(cls, s[..j]) && next(s[j + 1..]);
          assert j != 0;
          assert s[1..][j - 1] == d && s[1..][j..] == s[j + 1..];
          AllPrefixShift(cls, s, j - 1);
        }
      } else {
        if exists j :: 0 <= j < |s| && s[j] == d && All(cls, s[..j]) && next(s[j + 1..]) {
          var j :| 0 <= j < |s| && s[j] == d && All(cls, s[..j]) && next(s[j + 1..]);
          assert j == 0;
        }
        if RunThen(cls, d, next, s) {
          assert s[0] == d && All(cls, s[..0]);
        }
      }
    }
  }

  /** `[C]+` followed by the delimiter `d` and then whatever `next` accepts. */
  function PlusThen(cls: char -> bool, d: char, next: string -> bool, s: string): bool
  {
    |s| > 0 && cls(s[0]) && RunThen(cls, d, next, s[1..])
  }

  /** The scan finds exactly the splits `run + [d] + rest` with a non-empty `run` in the class. */
  lemma PlusThenSplit(cls: char -> bool, d: char, next: string -> bool, s: string)
    requires !cls(d)
    ensures PlusThen(cls, d, next, s) <==>
            exists j :: 0 < j < |s| && s[j] == d && All(cls, s[..j]) && next(s[j + 1..])
  {
    if |s| > 0 {
      RunThenSplit(cls, d, next, s[1..]);
      if PlusThen(cls, d, next, s) {
        var k :| 0 <= k < |s[1..]| && s[1..][k] == d && All(cls, s[1..][..k]) && next(s[1..][k + 1..]);
        assert s[k + 1] == d && s[k + 2..] == s[1..][k + 1..];
        AllPrefixShift(cls, s, k);
      }
      if exists j :: 0 < j < |s| && s[j] == d && All(cls, s[..j]) && next(s[j + 1..]) {
        var j :| 0 < j < |s| && s[j] == d && All(cls, s[..j]) && next(s[j + 1..]);
        assert s[1..][j - 1] == d && s[1..][j..] == s[j + 1..];
        AllPrefixShift(cls, s, j - 1);
      }
    }
  }
}
