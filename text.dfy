/**
 * The parts of Python's `str` that the command pipeline relies on:
 * whitespace, `strip()`, `split()` with and without a separator, and
 * `sep.join(...)`.
 */
module Text {

  /** `str.isspace()`: the characters `strip()`, `split()` and `\s` treat as whitespace. */
  predicate IsSpace(c: char) {
    c == ' ' || '\t' <= c <= '\r' || '\U{1c}' <= c <= '\U{1f}' || c == '\U{85}' || c == '\U{a0}'
    || c == '\U{1680}' || '\U{2000}' <= c <= '\U{200a}' || c == '\U{2028}' || c == '\U{2029}'
    || c == '\U{202f}' || c == '\U{205f}' || c == '\U{3000}'
  }

  /** The ASCII characters of the regular-expression class `\w`. */
  predicate IsWordChar(c: char) {
    'a' <= c <= 'z' || 'A' <= c <= 'Z' || '0' <= c <= '9' || c == '_'
  }

  predicate AllSpace(s: string) {
    forall k | 0 <= k < |s| :: IsSpace(s[k])
  }

  predicate NoSpace(s: string) {
    forall k | 0 <= k < |s| :: !IsSpace(s[k])
  }

  /** Neither end of `s` is whitespace: what `strip()` leaves. */
  predicate IsStripped(s: string) {
    s == [] || (!IsSpace(s[0]) && !IsSpace(s[|s| - 1]))
  }

  /** `sep in s` for strings. */
  predicate Contains(s: string, sep: string) {
    exists i :: 0 <= i <= |s| && sep <= s[i..]
  }

  function TrimLeft(s: string): (r: string)
    ensures |r| <= |s| && r == s[|s| - |r|..]
    ensures r == [] || !IsSpace(r[0])
    ensures AllSpace(s[..|s| - |r|])
  {
    if s != [] && IsSpace(s[0]) then
      var r := TrimLeft(s[1..]);
      assert s[..|s| - |r|] == [s[0]] + s[1..][..|s| - 1 - |r|];
      r
    else s
  }

  function TrimRight(s: string): (r: string)
    ensures |r| <= |s| && r == s[..|r|]
    ensures r == [] || !IsSpace(r[|r| - 1])
    ensures AllSpace(s[|r|..])
  {
    if s != [] && IsSpace(s[|s| - 1]) then
      var r := TrimRight(s[..|s| - 1]);
      assert s[|r|..] == s[..|s| - 1][|r|..] + [s[|s| - 1]];
      r
    else s
  }

  /** `s.strip()`: `s` without its leading and trailing whitespace. */
  function Strip(s: string): (r: string)
    ensures IsStripped(r)
    ensures r == [] <==> AllSpace(s)
  {
    var t := TrimLeft(s);
    var r := TrimRight(t);
    assert r == [] ==> s == s[..|s| - |t|] + t[|r|..];
    r
  }

  /** A slice of a string without the separator does not contain it either. */
  lemma SliceKeepsAbsent(s: string, k: nat, r: string, sep: string)
    requires k + |r| <= |s| && r == s[k..k + |r|] && !Contains(s, sep)
    ensures !Contains(r, sep)
  {
    forall i | 0 <= i <= |r| ensures !(sep <= r[i..]) {
      assert !(sep <= s[k + i..]);
      if |sep| <= |r| - i {
        assert forall j | 0 <= j < |sep| :: r[i..][j] == s[k + i..][j];
        assert r[i..][..|sep|] == s[k + i..][..|sep|];
      }
    }
  }

  /** Stripping cannot create an occurrence of a separator. */
  lemma StripKeepsAbsent(s: string, sep: string)
    requires !Contains(s, sep)
    ensures !Contains(Strip(s), sep)
  {
    var t := TrimLeft(s);
    var k := |s| - |t|;
    var r := Strip(s);
    assert r == TrimRight(t);
    assert t == s[k..];
    assert r == t[..|r|];
    SliceKeepsAbsent(s, k, r, sep);
  }

  /** The end of the run of non-whitespace characters that starts at `i`. */
  function WordEnd(s: string, i: nat): (j: nat)
    requires i <= |s|
    ensures i <= j <= |s|
    ensures forall k | i <= k < j :: !IsSpace(s[k])
    ensures j == |s| || IsSpace(s[j])
    decreases |s| - i
  {
    if i == |s| || IsSpace(s[i]) then i else WordEnd(s, i + 1)
  }

  /** `s.split()`: the maximal runs of non-whitespace characters, in order. */
  function Words(s: string): (ws: seq<string>)
    ensures forall k | 0 <= k < |ws| :: ws[k] != [] && NoSpace(ws[k])
    decreases |s|
  {
    if s == [] then []
    else if IsSpace(s[0]) then Words(s[1..])
    else
      var j := WordEnd(s, 1);
      [s[..j]] + Words(s[j..])
  }

  /**
   * `s.split(sep)` for a non-empty separator: the pieces between the
   * occurrences of `sep` found scanning left to right.
   */
  function Split(s: string, sep: string): (parts: seq<string>)
    requires sep != []
    ensures parts != [] && parts[0] <= s
    decreases |s|
  {
    if sep <= s then [""] + Split(s[|sep|..], sep)
    else if s == [] then [""]
    else
      var rest := Split(s[1..], sep);
      [[s[0]] + rest[0]] + rest[1..]
  }

  /** `sep.join(parts)`. */
  function Join(parts: seq<string>, sep: string): string {
    if parts == [] then ""
    else if |parts| == 1 then parts[0]
    else parts[0] + sep + Join(parts[1..], sep)
  }

  lemma {:induction false} WordsEmpty(s: string)
    ensures Words(s) == [] <==> AllSpace(s)
    decreases |s|
  {
    if s != [] && IsSpace(s[0]) {
      WordsEmpty(s[1..]);
      assert AllSpace(s) <==> AllSpace(s[1..]);
    }
  }

  lemma {:induction false} WordEndAt(s: string, i: nat, j: nat)
    requires i <= j <= |s| && (j == |s| || IsSpace(s[j]))
    requires forall k | i <= k < j :: !IsSpace(s[k])
    ensures WordEnd(s, i) == j
    decreases j - i
  {
    if i < j {
      WordEndAt(s, i + 1, j);
    }
  }

  /** A word followed by nothing or by whitespace is the first word. */
  lemma WordsCons(w: string, rest: string)
    requires w != [] && NoSpace(w) && (rest == [] || IsSpace(rest[0]))
    ensures Words(w + rest) == [w] + Words(rest)
  {
    var s := w + rest;
    WordEndAt(s, 1, |w|);
    assert s[..|w|] == w && s[|w|..] == rest;
  }

  /** Two words separated by whitespace are the first two words. */
  lemma WordsTwo(w1: string, sp: char, tail: string, w2: string, rest: string)
    requires w1 != [] && NoSpace(w1) && IsSpace(sp)
    requires tail == w2 + rest && w2 != [] && NoSpace(w2) && (rest == [] || IsSpace(rest[0]))
    ensures Words(w1 + [sp] + tail) == [w1, w2] + Words(rest)
  {
    WordThenSpace(w1, sp, tail);
    WordsCons(w2, rest);
    ConsTwo(w1, w2, Words(rest));
  }

  /** A word followed by whitespace is the first word, the rest is split on its own. */
  lemma WordThenSpace(w: string, sp: char, tail: string)
    requires w != [] && NoSpace(w) && IsSpace(sp)
    ensures Words(w + [sp] + tail) == [w] + Words(tail)
  {
    var t := [sp] + tail;
    assert w + [sp] + tail == w + t;
    WordsCons(w, t);
    assert t[1..] == tail;
  }

  lemma ConsTwo<T>(a: T, b: T, xs: seq<T>)
    ensures [a] + ([b] + xs) == [a, b] + xs
  {
  }

  lemma {:induction false} TrimLeftPadded(w: string, x: string)
    requires AllSpace(w) && (x == [] || !IsSpace(x[0]))
    ensures TrimLeft(w + x) == x
    decreases |w|
  {
    if w != [] {
      assert (w + x)[1..] == w[1..] + x;
      TrimLeftPadded(w[1..], x);
    }
  }

  lemma {:induction false} TrimRightPadded(x: string, w: string)
    requires AllSpace(w) && (x == [] || !IsSpace(x[|x| - 1]))
    ensures TrimRight(x + w) == x
    decreases |w|
  {
    if w != [] {
      assert (x + w)[..|x + w| - 1] == x + w[..|w| - 1];
      TrimRightPadded(x, w[..|w| - 1]);
    }
  }

  /** Stripping undoes padding a stripped string with whitespace on both sides. */
  lemma StripPadded(w1: string, x: string, w2: string)
    requires AllSpace(w1) && AllSpace(w2) && IsStripped(x) && x != []
    ensures Strip(w1 + x + w2) == x
  {
    assert w1 + x + w2 == w1 + (x + w2);
    TrimLeftPadded(w1, x + w2);
    TrimRightPadded(x, w2);
  }

  /** A piece that does not contain the separator splits into itself. */
  lemma {:induction false} SplitWithout(s: string, sep: string)
    requires sep != [] && !Contains(s, sep)
    ensures Split(s, sep) == [s]
    decreases |s|
  {
    assert sep <= s[0..] ==> Contains(s, sep);
    assert s[0..] == s;
    if s != [] {
      assert !Contains(s[1..], sep) by {
        forall i | 0 <= i <= |s[1..]| ensures !(sep <= s[1..][i..]) {
          assert s[1..][i..] == s[i + 1..];
        }
      }
      SplitWithout(s[1..], sep);
      assert [s[0]] + s[1..] == s;
    }
  }

  /**
   * Splitting at the first occurrence of the separator: when no occurrence
   * starts inside `a`, the first piece of `a + sep + b` is `a`.
   */
  lemma {:induction false} SplitAtFirst(a: string, sep: string, b: string)
    requires sep != []
    requires forall i | 0 <= i < |a| :: !(sep <= (a + sep + b)[i..])
    ensures Split(a + sep + b, sep) == [a] + Split(b, sep)
    decreases |a|
  {
    var s := a + sep + b;
    if a == [] {
      assert s == sep + b && s[|sep|..] == b;
    } else {
      assert !(sep <= s[0..]) && s[0..] == s;
      assert s[1..] == a[1..] + sep + b;
      forall i | 0 <= i < |a[1..]| ensures !(sep <= (a[1..] + sep + b)[i..]) {
        assert (a[1..] + sep + b)[i..] == s[i + 1..];
      }
      SplitAtFirst(a[1..], sep, b);
      assert [a[0]] + a[1..] == a;
    }
  }

  /** No piece of a split contains the separator. */
  lemma {:induction false} SplitPiecesFree(s: string, sep: string)
    requires sep != []
    ensures forall k | 0 <= k < |Split(s, sep)| :: !Contains(Split(s, sep)[k], sep)
    decreases |s|
  {
    var parts := Split(s, sep);
    if sep <= s {
      SplitPiecesFree(s[|sep|..], sep);
      assert !Contains("", sep);
    } else if s == [] {
      assert !Contains("", sep);
    } else {
      var rest := Split(s[1..], sep);
      SplitPiecesFree(s[1..], sep);
      var p := [s[0]] + rest[0];
      assert p <= s;
      forall i | 0 <= i <= |p| ensures !(sep <= p[i..]) {
        if i == 0 {
          assert p[0..] == p;
        } else {
          assert p[i..] == rest[0][i - 1..];
        }
      }
      forall k | 0 <= k < |parts| ensures !Contains(parts[k], sep) {
        if k > 0 {
          assert parts[k] == rest[k];
        }
      }
    }
  }

  /** One step of splitting on a single character. */
  lemma SplitCharStep(s: string, d: char)
    requires s != []
    ensures s[0] == d ==> Split(s, [d]) == [""] + Split(s[1..], [d])
    ensures s[0] != d ==> Split(s, [d]) == [[s[0]] + Split(s[1..], [d])[0]] + Split(s[1..], [d])[1..]
  {
    assert [d] <= s <==> s[0] == d;
  }

  lemma MergeFirst(c: char, ra: seq<string>, rb: seq<string>)
    requires ra != []
    ensures [[c] + ra[0]] + ra[1..] + rb == [[c] + (ra + rb)[0]] + (ra + rb)[1..]
  {
    assert (ra + rb)[1..] == ra[1..] + rb;
  }

  /** Splitting on one character distributes over an occurrence of it. */
  lemma {:induction false} SplitCharConcat(a: string, d: char, b: string)
    ensures Split(a + [d] + b, [d]) == Split(a, [d]) + Split(b, [d])
    decreases |a|
  {
    var s := a + [d] + b;
    if a == [] {
      assert s == [d] + b && s[1..] == b;
      SplitCharStep(s, d);
    } else {
      assert s[0] == a[0] && s[1..] == a[1..] + [d] + b;
      SplitCharConcat(a[1..], d, b);
      SplitCharStep(a, d);
      SplitCharStep(s, d);
      var ra := Split(a[1..], [d]);
      if a[0] == d {
        assert [""] + ra + Split(b, [d]) == [""] + (ra + Split(b, [d]));
      } else {
        MergeFirst(a[0], ra, Split(b, [d]));
      }
    }
  }

}
