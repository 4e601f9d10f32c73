/**
 * The fragments of Python's `str` API that the scripts rely on: `lower`, `upper`,
 * `strip`, `startswith`, `endswith`, `in`, `split`, `join` and `replace`.
 */
module Text {

  /** Python's `str.isspace` for one character. */
  predicate IsSpace(c: char) {
    var n := c as int;
    (9 <= n <= 13) || (28 <= n <= 32) || n == 0x85 || n == 0xA0 || n == 0x1680
    || (0x2000 <= n <= 0x200A) || n == 0x2028 || n == 0x2029 || n == 0x202F
    || n == 0x205F || n == 0x3000
  }

  function LowerChar(c: char): (lower: char) {
    if 'A' <= c <= 'Z' then (c as int + 32) as char else c
  }

  function UpperChar(c: char): (upper: char) {
    if 'a' <= c <= 'z' then (c as int - 32) as char else c
  }

  /** `s.lower()`, on the ASCII letters. */
  function Lower(s: string): (r: string)
    ensures |r| == |s|
  {
    seq(|s|, i requires 0 <= i < |s| => LowerChar(s[i]))
  }

  /** `s.upper()`, on the ASCII letters. */
  function Upper(s: string): (r: string)
    ensures |r| == |s|
  {
    seq(|s|, i requires 0 <= i < |s| => UpperChar(s[i]))
  }

  /** No character of `Upper(s)` is a lower-case ASCII letter. */
  lemma UpperHasNoLowerCase(s: string)
    ensures forall i :: 0 <= i < |s| ==> !('a' <= Upper(s)[i] <= 'z')
  {
  }

  predicate StartsWith(s: string, prefix: string) {
    |prefix| <= |s| && s[..|prefix|] == prefix
  }

  predicate EndsWith(s: string, suffix: string) {
    |suffix| <= |s| && s[|s| - |suffix|..] == suffix
  }

  /** `t` occurs in `s` starting at index `i`. */
  predicate OccursAt(s: string, t: string, i: int) {
    0 <= i && i + |t| <= |s| && s[i..i + |t|] == t
  }

  /** Python's `t in s` on strings. */
  predicate Contains(s: string, t: string)
    decreases |s|
  {
    StartsWith(s, t) || (|s| > 0 && Contains(s[1..], t))
  }

  lemma {:induction false} ContainsIff(s: string, t: string)
    ensures Contains(s, t) <==> exists i :: OccursAt(s, t, i)
    decreases |s|
  {
    assert StartsWith(s, t) <==> OccursAt(s, t, 0);
    if |s| > 0 {
      ContainsIff(s[1..], t);
      forall i | OccursAt(s, t, i) && i > 0 ensures OccursAt(s[1..], t, i - 1) {
        assert s[1..][i - 1..i - 1 + |t|] == s[i..i + |t|];
      }
      forall i | OccursAt(s[1..], t, i) ensures OccursAt(s, t, i + 1) {
        assert s[1..][i..i + |t|] == s[i + 1..i + 1 + |t|];
      }
    }
  }

  /** A one-character needle occurs exactly when the character does. */
  lemma ContainsChar(s: string, c: char)
    ensures Contains(s, [c]) <==> c in s
  {
    ContainsIff(s, [c]);
    if c in s {
      var i :| 0 <= i < |s| && s[i] == c;
      assert OccursAt(s, [c], i);
    }
    if Contains(s, [c]) {
      var i :| OccursAt(s, [c], i);
      assert s[i] == s[i..i + 1][0];
    }
  }

  /** `s.lstrip()`: drops leading whitespace. */
  function LStrip(s: string): (stripped: string)
    decreases |s|
  {
    if |s| > 0 && IsSpace(s[0]) then LStrip(s[1..]) else s
  }

  /** `s.rstrip()`: drops trailing whitespace. */
  function RStrip(s: string): (stripped: string)
    decreases |s|
  {
    if |s| > 0 && IsSpace(s[|s| - 1]) then RStrip(s[..|s| - 1]) else s
  }

  /** `s.strip()`. */
  function Strip(s: string): (stripped: string) {
    RStrip(LStrip(s))
  }

  /** `LStrip` removes a prefix made only of whitespace, and no more. */
  lemma {:induction false} LStripShape(s: string)
    ensures |LStrip(s)| <= |s| && LStrip(s) == s[|s| - |LStrip(s)|..]
    ensures forall k :: 0 <= k < |s| - |LStrip(s)| ==> IsSpace(s[k])
    ensures LStrip(s) == [] || !IsSpace(LStrip(s)[0])
    decreases |s|
  {
    if |s| > 0 && IsSpace(s[0]) {
      LStripShape(s[1..]);
      forall k | 1 <= k < |s| - |LStrip(s)| ensures IsSpace(s[k]) {
        assert s[k] == s[1..][k - 1];
      }
    }
  }

  /** `RStrip` removes a suffix made only of whitespace, and no more. */
  lemma {:induction false} RStripShape(s: string)
    ensures |RStrip(s)| <= |s| && RStrip(s) == s[..|RStrip(s)|]
    ensures forall k :: |RStrip(s)| <= k < |s| ==> IsSpace(s[k])
    ensures RStrip(s) == [] || !IsSpace(RStrip(s)[|RStrip(s)| - 1])
    decreases |s|
  {
    if |s| > 0 && IsSpace(s[|s| - 1]) {
      RStripShape(s[..|s| - 1]);
      forall k | |RStrip(s)| <= k < |s| - 1 ensures IsSpace(s[k]) {
        assert s[k] == s[..|s| - 1][k];
      }
    }
  }

  /**
   * `Strip(s)` is the slice of `s` left once its leading and trailing whitespace is
   * removed: only whitespace is dropped, and none remains at either end.
   */
  lemma StripIsTrimmedSlice(s: string)
    ensures exists i, j ::
              && 0 <= i <= j <= |s| && Strip(s) == s[i..j]
              && (forall k :: 0 <= k < i ==> IsSpace(s[k]))
              && (forall k :: j <= k < |s| ==> IsSpace(s[k]))
    ensures Strip(s) == [] || (!IsSpace(Strip(s)[0]) && !IsSpace(Strip(s)[|Strip(s)| - 1]))
  {
    var l := LStrip(s);
    var r := RStrip(l);
    LStripShape(s);
    RStripShape(l);
    var i := |s| - |l|;
    var j := i + |r|;
    assert r == s[i..j];
    forall k | j <= k < |s| ensures IsSpace(s[k]) {
      assert s[k] == l[k - i];
    }
  }

  /** The bounds of the slice `Strip(s)` takes out of `s`. */
  lemma StripBounds(s: string) returns (i: nat, j: nat)
    ensures i <= j <= |s| && Strip(s) == s[i..j]
    ensures forall k :: 0 <= k < i ==> IsSpace(s[k])
    ensures forall k :: j <= k < |s| ==> IsSpace(s[k])
    ensures i == j || (!IsSpace(s[i]) && !IsSpace(s[j - 1]))
  {
    StripIsTrimmedSlice(s);
    i, j :| && 0 <= i <= j <= |s| && Strip(s) == s[i..j]
           && (forall k :: 0 <= k < i ==> IsSpace(s[k]))
           && (forall k :: j <= k < |s| ==> IsSpace(s[k]));
    if i < j {
      assert s[i] == Strip(s)[0] && s[j - 1] == Strip(s)[|Strip(s)| - 1];
    }
  }

  /** Characters of `Strip(s)` are characters of `s`. */
  lemma StripKeepsChars(s: string)
    ensures forall c :: c in Strip(s) ==> c in s
  {
    StripIsTrimmedSlice(s);
  }

  /**
   * Python's `s.split(sep)` for a non-empty separator: the pieces between the
   * non-overlapping occurrences of `sep`, scanning from the left.
   */
  function Split(s: string, sep: string): (parts: seq<string>)
    requires sep != ""
    ensures |parts| >= 1
    ensures parts[0] <= s
    decreases |s|
  {
    if |s| < |sep| then [s]
    else if s[..|sep|] == sep then [""] + Split(s[|sep|..], sep)
    else
      var rest := Split(s[1..], sep);
      [[s[0]] + rest[0]] + rest[1..]
  }

  /** Python's `sep.join(parts)`. */
  function Join(parts: seq<string>, sep: string): (joined: string)
    decreases |parts|
  {
    if |parts| == 0 then ""
    else if |parts| == 1 then parts[0]
    else parts[0] + sep + Join(parts[1..], sep)
  }

  /** Python's `s.replace(old, new)`: every non-overlapping occurrence, from the left. */
  function Replace(s: string, target: string, replacement: string): (replaced: string)
    requires target != ""
  {
    Join(Split(s, target), replacement)
  }

  /** Joining the pieces of a split with the same separator gives back the string. */
  lemma {:induction false} SplitJoin(s: string, sep: string)
    requires sep != ""
    ensures Join(Split(s, sep), sep) == s
    decreases |s|
  {
    if |s| < |sep| {
    } else if s[..|sep|] == sep {
      SplitJoin(s[|sep|..], sep);
      var rest := Split(s[|sep|..], sep);
      assert Split(s, sep) == [""] + rest;
      assert ([""] + rest)[1..] == rest;
      assert s == sep + s[|sep|..];
    } else {
      SplitJoin(s[1..], sep);
      var rest := Split(s[1..], sep);
      var parts := [[s[0]] + rest[0]] + rest[1..];
      assert Split(s, sep) == parts;
      if |rest| == 1 {
        assert Join(parts, sep) == [s[0]] + rest[0];
      } else {
        assert parts[1..] == rest[1..];
        assert Join(parts, sep) == [s[0]] + (rest[0] + sep + Join(rest[1..], sep));
      }
      assert s == [s[0]] + s[1..];
    }
  }

  lemma {:induction false} ShorterHasNoOccurrence(s: string, t: string)
    requires |s| < |t|
    ensures !Contains(s, t)
    decreases |s|
  {
    if |s| > 0 {
      ShorterHasNoOccurrence(s[1..], t);
    }
  }

  /** No piece of a split contains the separator. */
  lemma {:induction false} SplitPiecesAvoidSep(s: string, sep: string)
    requires sep != ""
    ensures forall k :: 0 <= k < |Split(s, sep)| ==> !Contains(Split(s, sep)[k], sep)
    decreases |s|
  {
    var parts := Split(s, sep);
    if |s| < |sep| {
      ShorterHasNoOccurrence(s, sep);
    } else if s[..|sep|] == sep {
      SplitPiecesAvoidSep(s[|sep|..], sep);
      ShorterHasNoOccurrence("", sep);
      assert forall k :: 1 <= k < |parts| ==> parts[k] == Split(s[|sep|..], sep)[k - 1];
    } else {
      SplitPiecesAvoidSep(s[1..], sep);
      var rest := Split(s[1..], sep);
      var head := [s[0]] + rest[0];
      assert head[1..] == rest[0];
      if |sep| <= |head| {
        assert head[..|sep|] == s[..|sep|];
      }
      assert forall k :: 1 <= k < |parts| ==> parts[k] == rest[k];
    }
  }

  /** There is more than one piece exactly when the separator occurs. */
  lemma {:induction false} SplitCountIff(s: string, sep: string)
    requires sep != ""
    ensures |Split(s, sep)| >= 2 <==> Contains(s, sep)
    decreases |s|
  {
    if |s| < |sep| {
      ShorterHasNoOccurrence(s, sep);
    } else if s[..|sep|] == sep {
      assert StartsWith(s, sep);
    } else {
      SplitCountIff(s[1..], sep);
      assert !StartsWith(s, sep);
    }
  }

  /** An occurrence in a suffix is an occurrence in the whole string, shifted by the cut. */
  lemma OccursAtShift(s: string, t: string, k: nat, i: nat)
    requires k <= |s|
    ensures OccursAt(s[k..], t, i) <==> OccursAt(s, t, k + i)
  {
    if k + i + |t| <= |s| {
      assert s[k..][i..i + |t|] == s[k + i..k + i + |t|];
    }
  }

  /** Where the separator does not start the text, the first character joins the first piece. */
  lemma SplitStep(s: string, sep: string)
    requires sep != "" && |s| >= |sep| && s[..|sep|] != sep
    ensures |Split(s, sep)| == |Split(s[1..], sep)|
    ensures Split(s, sep)[0] == [s[0]] + Split(s[1..], sep)[0]
    ensures Split(s, sep)[1..] == Split(s[1..], sep)[1..]
  {
  }

  /** No occurrence of the separator starts inside the first piece of a split. */
  lemma {:induction false} SplitFirstHasNoOccurrence(s: string, sep: string)
    requires sep != ""
    ensures forall i :: 0 <= i < |Split(s, sep)[0]| ==> !OccursAt(s, sep, i)
    decreases |s|
  {
    if |s| >= |sep| && s[..|sep|] != sep {
      SplitStep(s, sep);
      SplitFirstHasNoOccurrence(s[1..], sep);
      forall i | 0 < i < |Split(s, sep)[0]| ensures !OccursAt(s, sep, i) {
        OccursAtShift(s, sep, 1, i - 1);
      }
    }
  }

  /** A text that starts with the separator has an empty first piece, then the split of the rest. */
  lemma SplitAtSep(s: string, sep: string)
    requires sep != "" && |s| >= |sep| && s[..|sep|] == sep
    ensures Split(s, sep)[0] == ""
    ensures Split(s, sep)[1..] == Split(s[|sep|..], sep)
  {
    assert Split(s, sep) == [""] + Split(s[|sep|..], sep);
  }

  /**
   * No occurrence of the separator starts inside the second piece of a split: that piece
   * ends at the next occurrence that does not overlap the first one, or at the end.
   */
  lemma {:induction false} SplitSecondHasNoOccurrence(s: string, sep: string)
    requires sep != "" && |Split(s, sep)| >= 2
    ensures var k := |Split(s, sep)[0]| + |sep|;
            forall i :: k <= i < k + |Split(s, sep)[1]| ==> !OccursAt(s, sep, i)
    decreases |s|
  {
    if |s| >= |sep| {
      if s[..|sep|] == sep {
        SplitAtSep(s, sep);
        var after := s[|sep|..];
        assert Split(s, sep)[1] == Split(after, sep)[0];
        SplitFirstHasNoOccurrence(after, sep);
        forall i | |sep| <= i < |sep| + |Split(after, sep)[0]| ensures !OccursAt(s, sep, i) {
          OccursAtShift(s, sep, |sep|, i - |sep|);
        }
      } else {
        SplitStep(s, sep);
        SplitSecondHasNoOccurrence(s[1..], sep);
        var k := |Split(s[1..], sep)[0]| + |sep|;
        assert Split(s, sep)[1] == Split(s[1..], sep)[1];
        forall i | k + 1 <= i < k + 1 + |Split(s[1..], sep)[1]| ensures !OccursAt(s, sep, i) {
          OccursAtShift(s, sep, 1, i - 1);
        }
      }
    }
  }

  /** Joining two or more pieces starts with the first two pieces around the separator. */
  lemma JoinFirstTwo(parts: seq<string>, sep: string)
    requires |parts| >= 2
    ensures Join(parts, sep) == parts[0] + sep + parts[1]
         || Join(parts, sep) == parts[0] + sep + parts[1] + sep + Join(parts[2..], sep)
  {
    if |parts| > 2 {
      assert parts[1..][1..] == parts[2..];
    }
  }

  /** Joining two or more pieces ends with the separator and the last piece. */
  lemma {:induction false} JoinLast(parts: seq<string>, sep: string)
    requires |parts| >= 2
    ensures Join(parts, sep) == Join(parts[..|parts| - 1], sep) + sep + parts[|parts| - 1]
    decreases |parts|
  {
    if |parts| > 2 {
      JoinLast(parts[1..], sep);
      assert parts[1..][..|parts| - 2] == parts[..|parts| - 1][1..];
    }
  }

  /** The first piece of a split on one character runs up to its first occurrence. */
  lemma SplitFirstPiece(s: string, c: char)
    ensures var p := Split(s, [c])[0];
            |p| <= |s| && p == s[..|p|] && c !in p && (|p| == |s| || s[|p|] == c)
  {
    var parts := Split(s, [c]);
    SplitJoin(s, [c]);
    SplitPiecesAvoidSep(s, [c]);
    ContainsChar(parts[0], c);
    if |parts| >= 2 {
      assert s == parts[0] + [c] + Join(parts[1..], [c]);
      assert s[|parts[0]|] == c;
    }
  }

  /** The last piece of a split on one character is what follows its last occurrence. */
  lemma SplitLastPiece(s: string, c: char)
    ensures var p := Split(s, [c])[|Split(s, [c])| - 1];
            |p| <= |s| && p == s[|s| - |p|..] && c !in p && (|p| == |s| || s[|s| - |p| - 1] == c)
  {
    var parts := Split(s, [c]);
    var p := parts[|parts| - 1];
    SplitJoin(s, [c]);
    SplitPiecesAvoidSep(s, [c]);
    ContainsChar(p, c);
    if |parts| >= 2 {
      JoinLast(parts, [c]);
      var front := Join(parts[..|parts| - 1], [c]);
      assert s == front + [c] + p;
      assert s[|s| - |p| - 1] == c;
    }
  }

  /** Leading whitespace makes no difference to `lstrip`. */
  lemma {:induction false} LStripSkipsSpaces(w: string, x: string)
    requires forall k :: 0 <= k < |w| ==> IsSpace(w[k])
    ensures LStrip(w + x) == LStrip(x)
    decreases |w|
  {
    if |w| > 0 {
      assert (w + x)[0] == w[0] && (w + x)[1..] == w[1..] + x;
      LStripSkipsSpaces(w[1..], x);
    } else {
      assert w + x == x;
    }
  }

  /** Leading whitespace makes no difference to `strip`. */
  lemma StripSkipsSpaces(w: string, x: string)
    requires forall k :: 0 <= k < |w| ==> IsSpace(w[k])
    ensures Strip(w + x) == Strip(x)
  {
    LStripSkipsSpaces(w, x);
  }

  /** A string with no whitespace at either end is its own `strip`. */
  lemma StripTrimmed(s: string)
    requires s == [] || (!IsSpace(s[0]) && !IsSpace(s[|s| - 1]))
    ensures Strip(s) == s
  {
  }
}
