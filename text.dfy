/** String operations the parser relies on: Python's `\s`, `str.strip()`,
    `str.split()`, `str.rstrip(':')`, `str.startswith` and slicing, and the
    ordering `sorted()` uses on names.  Whitespace is the six ASCII blanks.
 */
module Text {

  predicate IsSpace(c: char) {
    c == ' ' || c == '\t' || c == '\n' || c == '\r' || c == '\U{000B}' || c == '\U{000C}'
  }

  predicate NoSpace(s: string) {
    forall k :: 0 <= k < |s| ==> !IsSpace(s[k])
  }

  predicate AllSpace(s: string) {
    forall k :: 0 <= k < |s| ==> IsSpace(s[k])
  }

  /** The end of the run of blanks of `s` that starts at `i`. */
  function SpaceEnd(s: string, i: nat): (n: nat)
    requires i <= |s|
    ensures i <= n <= |s|
    ensures forall k :: i <= k < n ==> IsSpace(s[k])
    ensures n == |s| || !IsSpace(s[n])
    decreases |s| - i
  {
    if i < |s| && IsSpace(s[i]) then SpaceEnd(s, i + 1) else i
  }

  /** `s[i:j].strip()` as the body it gives a tag: the stripped slice, or nothing when the
      slice is blank. */
  function StrippedText(s: string, i: nat, j: nat): (r: seq<string>)
    requires i <= j <= |s|
    ensures |r| <= 1
    decreases j - i
  {
    if i < j && IsSpace(s[i]) then StrippedText(s, i + 1, j)
    else if i < j && IsSpace(s[j - 1]) then StrippedText(s, i, j - 1)
    else if i == j then []
    else [s[i..j]]
  }

  /** What `str.strip()` keeps: the slice between a blank prefix and a blank suffix that
      neither begins nor ends with a blank. */
  predicate StrippedAt(s: string, i: nat, j: nat, a: nat, b: nat)
    requires i <= j <= |s|
  {
    i <= a <= b <= j && AllSpace(s[i..a]) && AllSpace(s[b..j])
    && (a < b ==> !IsSpace(s[a]) && !IsSpace(s[b - 1]))
  }

  /** The text kept is the slice without its blank prefix and suffix, and none if that is empty. */
  lemma {:induction false} StrippedTextIsInfix(s: string, i: nat, j: nat)
    requires i <= j <= |s|
    ensures exists a: nat, b: nat :: StrippedAt(s, i, j, a, b) && StrippedText(s, i, j) == if a == b then [] else [s[a..b]]
    decreases j - i
  {
    if i < j && IsSpace(s[i]) {
      StrippedTextIsInfix(s, i + 1, j);
      var a: nat, b: nat :| StrippedAt(s, i + 1, j, a, b) && StrippedText(s, i + 1, j) == if a == b then [] else [s[a..b]];
      StrippedWiderLeft(s, i, j, a, b);
      assert StrippedText(s, i, j) == if a == b then [] else [s[a..b]];
    } else if i < j && IsSpace(s[j - 1]) {
      StrippedTextIsInfix(s, i, j - 1);
      var a: nat, b: nat :| StrippedAt(s, i, j - 1, a, b) && StrippedText(s, i, j - 1) == if a == b then [] else [s[a..b]];
      StrippedWiderRight(s, i, j, a, b);
      assert StrippedText(s, i, j) == if a == b then [] else [s[a..b]];
    } else {
      assert StrippedAt(s, i, j, i, j);
    }
  }

  lemma StrippedWiderLeft(s: string, i: nat, j: nat, a: nat, b: nat)
    requires i < j <= |s| && IsSpace(s[i]) && StrippedAt(s, i + 1, j, a, b)
    ensures StrippedAt(s, i, j, a, b)
  {
    SpacesExtendLeft(s, i, a);
  }

  lemma StrippedWiderRight(s: string, i: nat, j: nat, a: nat, b: nat)
    requires i < j <= |s| && IsSpace(s[j - 1]) && StrippedAt(s, i, j - 1, a, b)
    ensures StrippedAt(s, i, j, a, b)
  {
    SpacesExtendRight(s, b, j);
  }

  /** Stripping leaves nothing exactly when the slice is all blank, and never an empty text. */
  lemma StrippedTextEmpty(s: string, i: nat, j: nat)
    requires i <= j <= |s|
    ensures StrippedText(s, i, j) == [] <==> AllSpace(s[i..j])
    ensures StrippedText(s, i, j) != [] ==> StrippedText(s, i, j)[0] != ""
  {
    StrippedTextIsInfix(s, i, j);
    var a: nat, b: nat :| StrippedAt(s, i, j, a, b) && StrippedText(s, i, j) == if a == b then [] else [s[a..b]];
    var whole := s[i..j];
    if a < b {
      assert whole[a - i] == s[a];
    } else {
      var pre, post := s[i..a], s[b..j];
      forall k | 0 <= k < |whole| ensures IsSpace(whole[k]) {
        if i + k < a {
          assert whole[k] == pre[k];
        } else {
          assert whole[k] == post[i + k - b];
        }
      }
    }
  }

  /** A blank followed by a run of blanks is a run of blanks. */
  lemma SpacesExtendLeft(s: string, i: nat, a: nat)
    requires i < a <= |s| && IsSpace(s[i])
    ensures AllSpace(s[i..a]) <==> AllSpace(s[i + 1..a])
  {
    var whole, rest := s[i..a], s[i + 1..a];
    assert forall k :: 0 <= k < |rest| ==> whole[k + 1] == rest[k];
    if AllSpace(rest) {
      forall k | 0 <= k < |whole| ensures IsSpace(whole[k]) {
        if k > 0 { assert whole[k] == rest[k - 1]; }
      }
    }
  }

  /** A run of blanks followed by a blank is a run of blanks. */
  lemma SpacesExtendRight(s: string, b: nat, j: nat)
    requires b < j <= |s| && IsSpace(s[j - 1])
    ensures AllSpace(s[b..j]) <==> AllSpace(s[b..j - 1])
  {
    var whole, rest := s[b..j], s[b..j - 1];
    assert forall k :: 0 <= k < |rest| ==> whole[k] == rest[k];
    assert whole[|whole| - 1] == s[j - 1];
  }

  /** Python's slice `s[n:]`, which is empty when `n` is past the end. */
  function Drop(s: string, n: nat): string {
    if n <= |s| then s[n..] else ""
  }

  /** The end of the run of non-blanks of `s` that starts at `i`. */
  function WordEnd(s: string, i: nat): (n: nat)
    requires i <= |s|
    ensures i <= n <= |s|
    ensures forall k :: i <= k < n ==> !IsSpace(s[k])
    ensures n == |s| || IsSpace(s[n])
    decreases |s| - i
  {
    if i < |s| && !IsSpace(s[i]) then WordEnd(s, i + 1) else i
  }

  /** The blank-separated words of `s` from index `i` on. */
  function WordsFrom(s: string, i: nat): (ws: seq<string>)
    requires i <= |s|
    ensures forall k :: 0 <= k < |ws| ==> ws[k] != "" && NoSpace(ws[k])
    decreases |s| - i
  {
    var a := SpaceEnd(s, i);
    if a == |s| then []
    else
      var n := WordEnd(s, a);
      [s[a..n]] + WordsFrom(s, n)
  }

  /** `str.split()` without arguments: the maximal runs of non-blank characters,
      none of them when `s` is blank. */
  function Words(s: string): (ws: seq<string>)
    ensures ws == [] <==> AllSpace(s)
  {
    WordsFrom(s, 0)
  }

  /** `str.rstrip(':')`: `s` without its trailing colons. */
  function StripColon(s: string): (r: string)
    ensures r <= s
    ensures r == "" || r[|r| - 1] != ':'
    ensures forall k :: |r| <= k < |s| ==> s[k] == ':'
  {
    if |s| > 0 && s[|s| - 1] == ':' then StripColon(s[..|s| - 1]) else s
  }

  /** Python's `<` on `str`: lexicographic by code point, a proper prefix first. */
  predicate Below(a: string, b: string) {
    if |a| == 0 then |b| > 0
    else if |b| == 0 then false
    else a[0] < b[0] || (a[0] == b[0] && Below(a[1..], b[1..]))
  }

  lemma {:induction false} BelowIrreflexive(a: string)
    ensures !Below(a, a)
  {
    if |a| > 0 { BelowIrreflexive(a[1..]); }
  }

  lemma {:induction false} BelowTransitive(a: string, b: string, c: string)
    requires Below(a, b) && Below(b, c)
    ensures Below(a, c)
  {
    if |a| > 0 && a[0] == b[0] && b[0] == c[0] {
      BelowTransitive(a[1..], b[1..], c[1..]);
    }
  }

  lemma {:induction false} BelowTotal(a: string, b: string)
    requires a != b
    ensures Below(a, b) || Below(b, a)
  {
    if |a| > 0 && |b| > 0 && a[0] == b[0] {
      assert a == [a[0]] + a[1..] && b == [b[0]] + b[1..];
      BelowTotal(a[1..], b[1..]);
    }
  }

  predicate IsLeast(m: string, names: set<string>) {
    m in names && forall x :: x in names && x != m ==> Below(m, x)
  }

  /** Every finite non-empty set of names has a least element, the one `sorted()` yields first. */
  lemma {:induction false} LeastExists(names: set<string>)
    requires names != {}
    ensures exists m :: IsLeast(m, names)
    decreases |names|
  {
    var x :| x in names;
    var rest := names - {x};
    if rest == {} {
      assert names == {x};
      assert IsLeast(x, names);
    } else {
      LeastExists(rest);
      var m :| IsLeast(m, rest);
      if Below(m, x) {
        assert IsLeast(m, names);
      } else {
        BelowTotal(m, x);
        forall y | y in names && y != x ensures Below(x, y) {
          if y != m { BelowTransitive(x, m, y); }
        }
        assert IsLeast(x, names);
      }
    }
  }

  /** At most one name is least. */
  lemma LeastUnique(a: string, b: string, names: set<string>)
    requires IsLeast(a, names) && IsLeast(b, names)
    ensures a == b
  {
    if a != b {
      BelowTransitive(a, b, a);
      BelowIrreflexive(a);
    }
  }

  /** The first name of `sorted(names)`. */
  ghost function Least(names: set<string>): (m: string)
    requires names != {}
    ensures IsLeast(m, names)
  {
    LeastExists(names);
    var m :| IsLeast(m, names); m
  }
}
