/**
 * Normalisation of the domain list file: every line is stripped of the
 * whitespace Python's `str.strip()` removes, blank lines are dropped and
 * the order of the remaining lines is kept.
 */
module InputLines {

  /**
   * The characters for which Python's `str.isspace()` holds: tab, line feed,
   * vertical tab, form feed, carriage return, the four information separators,
   * space, next line, no-break space, and the Unicode space separators.
   * `str.strip()` with no argument removes exactly these.
   */
  const Whitespace: string :=
    "\t\n\U{B}\U{C}\r\U{1C}\U{1D}\U{1E}\U{1F} \U{85}\U{A0}\U{1680}"
    + "\U{2000}\U{2001}\U{2002}\U{2003}\U{2004}\U{2005}\U{2006}\U{2007}\U{2008}\U{2009}\U{200A}"
    + "\U{2028}\U{2029}\U{202F}\U{205F}\U{3000}"

  predicate IsSpace(c: char) {
    Occurs(c, Whitespace)
  }

  /** `c` is one of the characters of `table`. */
  predicate Occurs(c: char, table: string) {
    table != [] && (table[0] == c || Occurs(c, table[1..]))
  }

  /** Visible ASCII characters (letters, digits, `.`, `-` and the like) are not whitespace. */
  lemma VisibleAsciiNotSpace(c: char)
    requires '!' <= c <= '~'
    ensures !IsSpace(c)
  {
    if IsSpace(c) {
      var k := OccursAt(c, Whitespace);
      assert false;
    }
  }

  /** A character found in `table` stands at some position of it. */
  lemma {:induction false} OccursAt(c: char, table: string) returns (k: nat)
    requires Occurs(c, table)
    ensures k < |table| && table[k] == c
  {
    if table[0] != c {
      k := OccursAt(c, table[1..]);
      k := k + 1;
    } else {
      k := 0;
    }
  }

  /** Every character of `s` is whitespace (the empty string included). */
  predicate IsBlank(s: string) {
    forall i :: 0 <= i < |s| ==> IsSpace(s[i])
  }

  /** A line made only of visible ASCII characters (an ASCII host name) is left as it is by `Strip`. */
  lemma StripVisible(s: string)
    requires forall i :: 0 <= i < |s| ==> '!' <= s[i] <= '~'
    ensures Strip(s) == s
  {
    if s != [] {
      VisibleAsciiNotSpace(s[0]);
      VisibleAsciiNotSpace(s[|s| - 1]);
    }
    assert s[..0] == [] && s[|s|..] == [] && s[0..|s|] == s;
    StripUnique(s, 0, |s|);
  }

  /** `s` without its leading whitespace. */
  function StripLeading(s: string): (r: string)
    ensures |r| <= |s| && r == s[|s| - |r|..]
    ensures r == [] || !IsSpace(r[0])
  {
    if s != [] && IsSpace(s[0]) then StripLeading(s[1..]) else s
  }

  /** Only whitespace was removed from the front. */
  lemma {:induction false} StripLeadingRemovesBlank(s: string)
    ensures IsBlank(s[..|s| - |StripLeading(s)|])
  {
    if s != [] && IsSpace(s[0]) {
      var t := s[1..];
      var r := StripLeading(t);
      StripLeadingRemovesBlank(t);
      assert StripLeading(s) == r;
      var removed := s[..|s| - |r|];
      forall i | 0 <= i < |removed| ensures IsSpace(removed[i]) {
        if i > 0 { assert removed[i] == t[..|t| - |r|][i - 1]; }
      }
    }
  }

  /** `s` without its trailing whitespace. */
  function StripTrailing(s: string): (r: string)
    ensures |r| <= |s| && r == s[..|r|]
    ensures r == [] || !IsSpace(r[|r| - 1])
  {
    if s != [] && IsSpace(s[|s| - 1]) then StripTrailing(s[..|s| - 1]) else s
  }

  /** Only whitespace was removed from the back. */
  lemma {:induction false} StripTrailingRemovesBlank(s: string)
    ensures IsBlank(s[|StripTrailing(s)|..])
  {
    if s != [] && IsSpace(s[|s| - 1]) {
      var init := s[..|s| - 1];
      var r := StripTrailing(init);
      StripTrailingRemovesBlank(init);
      assert StripTrailing(s) == r;
      var removed := s[|r|..];
      forall i | 0 <= i < |removed| ensures IsSpace(removed[i]) {
        if i < |init| - |r| { assert removed[i] == init[|r|..][i]; }
      }
    }
  }

  /** Python's `line.strip()`: `s` without whitespace at either end. */
  function Strip(s: string): (r: string)
    ensures |r| <= |s|
    ensures r == [] || (!IsSpace(r[0]) && !IsSpace(r[|r| - 1]))
  {
    StripTrailing(StripLeading(s))
  }

  /** A line strips to nothing exactly when it is blank. */
  lemma StripEmpty(s: string)
    ensures Strip(s) == [] <==> IsBlank(s)
  {
    var left := StripLeading(s);
    StripLeadingRemovesBlank(s);
    if left == [] {
      assert s == s[..|s|] + left;
    } else {
      assert left[0] == s[|s| - |left|] && !IsSpace(left[0]);
      StripTrailingRemovesBlank(left);
      assert !IsBlank(left) && left[0..] == left;
    }
  }

  /** `Strip(s)` is the infix `s[i..j]`, and everything around it is whitespace. */
  lemma StripIsInfix(s: string) returns (i: nat, j: nat)
    ensures i <= j <= |s| && Strip(s) == s[i..j]
    ensures IsBlank(s[..i]) && IsBlank(s[j..])
  {
    var left := StripLeading(s);
    StripLeadingRemovesBlank(s);
    StripTrailingRemovesBlank(left);
    i := |s| - |left|;
    j := i + |StripTrailing(left)|;
    assert s[i..j] == left[..j - i];
    assert s[j..] == left[j - i..];
  }

  /** Removing leading whitespace stops at the first non-whitespace character. */
  lemma {:induction false} StripLeadingAt(s: string, i: nat)
    requires i <= |s| && IsBlank(s[..i])
    requires i < |s| ==> !IsSpace(s[i])
    ensures StripLeading(s) == s[i..]
  {
    if i > 0 {
      assert s[..i][0] == s[0];
      assert s[1..][..i - 1] == s[1..i];
      assert forall m :: 0 <= m < i - 1 ==> s[1..i][m] == s[..i][m + 1];
      StripLeadingAt(s[1..], i - 1);
      assert s[1..][i - 1..] == s[i..];
    }
  }

  /** Removing trailing whitespace stops after the last non-whitespace character. */
  lemma {:induction false} StripTrailingAt(s: string, j: nat)
    requires j <= |s| && IsBlank(s[j..])
    requires 0 < j ==> !IsSpace(s[j - 1])
    ensures StripTrailing(s) == s[..j]
  {
    if j < |s| {
      assert s[j..][|s| - 1 - j] == s[|s| - 1];
      var t := s[..|s| - 1];
      assert t[j..] == s[j..|s| - 1];
      assert forall m :: 0 <= m < |t| - j ==> t[j..][m] == s[j..][m];
      StripTrailingAt(t, j);
      assert t[..j] == s[..j];
    }
  }

  /**
   * The properties of `Strip` pin its result down: any infix of `s` that is
   * surrounded by whitespace only and neither starts nor ends with whitespace
   * is `Strip(s)`.
   */
  lemma StripUnique(s: string, i: nat, j: nat)
    requires i <= j <= |s|
    requires IsBlank(s[..i]) && IsBlank(s[j..])
    requires i == j || (!IsSpace(s[i]) && !IsSpace(s[j - 1]))
    ensures Strip(s) == s[i..j]
  {
    if i == j {
      BlankAround(s, i);
      StripEmpty(s);
      assert s[i..j] == [];
    } else {
      StripLeadingAt(s, i);
      StripTrailingInfix(s, i, j);
    }
  }

  /** A string that is blank before and after position `i` is blank. */
  lemma BlankAround(s: string, i: nat)
    requires i <= |s| && IsBlank(s[..i]) && IsBlank(s[i..])
    ensures IsBlank(s)
  {
    forall m | 0 <= m < |s| ensures IsSpace(s[m]) {
      if m < i { assert s[..i][m] == s[m]; } else { assert s[i..][m - i] == s[m]; }
    }
  }

  /** Removing trailing whitespace from `s[i..]` leaves `s[i..j]`. */
  lemma StripTrailingInfix(s: string, i: nat, j: nat)
    requires i < j <= |s| && IsBlank(s[j..]) && !IsSpace(s[j - 1])
    ensures StripTrailing(s[i..]) == s[i..j]
  {
    var left := s[i..];
    assert left[j - i..] == s[j..] && left[j - i - 1] == s[j - 1];
    StripTrailingAt(left, j - i);
    assert left[..j - i] == s[i..j];
  }

  /** Stripping twice is stripping once. */
  lemma StripIdempotent(s: string)
    ensures Strip(Strip(s)) == Strip(s)
  {
    var r := Strip(s);
    assert r[..0] == [] && r[|r|..] == [];
    StripUnique(r, 0, |r|);
  }

  /** What one line contributes: its stripped form, unless that is empty. */
  function Kept(line: string): seq<string> {
    var h := Strip(line);
    if h == [] then [] else [h]
  }

  /**
   * `[line.strip() for line in file if line.strip()]`: the stripped forms of
   * the non-blank lines, in input order.
   */
  function Normalise(lines: seq<string>): (domains: seq<string>)
    ensures |domains| <= |lines|
  {
    if lines == [] then [] else Kept(lines[0]) + Normalise(lines[1..])
  }

  /** Normalising a concatenation normalises each part. */
  lemma {:induction false} NormaliseAppend(a: seq<string>, b: seq<string>)
    ensures Normalise(a + b) == Normalise(a) + Normalise(b)
  {
    if a == [] {
      assert a + b == b;
    } else {
      var ab := a + b;
      assert ab[0] == a[0] && ab[1..] == a[1..] + b;
      NormaliseAppend(a[1..], b);
      assert Normalise(ab) == Kept(a[0]) + (Normalise(a[1..]) + Normalise(b));
      assert Kept(a[0]) + (Normalise(a[1..]) + Normalise(b)) == (Kept(a[0]) + Normalise(a[1..])) + Normalise(b);
    }
  }

  /** Appending one line appends its stripped form, unless it is blank. */
  lemma NormaliseSnoc(init: seq<string>, last: string)
    ensures Normalise(init + [last]) == Normalise(init) + if IsBlank(last) then [] else [Strip(last)]
  {
    NormaliseAppend(init, [last]);
    NormaliseSingle(last);
  }

  /** A single line normalises to its stripped form, or to nothing when it is blank. */
  lemma NormaliseSingle(line: string)
    ensures Normalise([line]) == if IsBlank(line) then [] else [Strip(line)]
  {
    StripEmpty(line);
    assert [line][1..] == [];
  }

  /**
   * Every non-blank line is kept, in order: line `j` lands at the position
   * given by the number of domains its predecessors contribute.
   */
  lemma NormaliseKeeps(lines: seq<string>, j: nat)
    requires j < |lines| && !IsBlank(lines[j])
    ensures |Normalise(lines[..j])| < |Normalise(lines)|
    ensures Normalise(lines)[|Normalise(lines[..j])|] == Strip(lines[j])
  {
    assert lines == lines[..j] + ([lines[j]] + lines[j + 1..]);
    NormaliseAppend(lines[..j], [lines[j]] + lines[j + 1..]);
    NormaliseAppend([lines[j]], lines[j + 1..]);
    NormaliseSingle(lines[j]);
  }

  /**
   * Nothing else is in the normalised list: its `k`-th entry is the stripped
   * form of a non-blank line `j` that has exactly `k` domains before it.
   */
  lemma {:induction false} NormaliseOrigin(lines: seq<string>, k: nat) returns (j: nat)
    requires k < |Normalise(lines)|
    ensures j < |lines| && !IsBlank(lines[j])
    ensures |Normalise(lines[..j])| == k && Normalise(lines)[k] == Strip(lines[j])
  {
    var n := |lines| - 1;
    var init := lines[..n];
    assert lines == init + [lines[n]];
    NormaliseSnoc(init, lines[n]);
    if k < |Normalise(init)| {
      j := NormaliseOrigin(init, k);
      assert init[..j] == lines[..j] && init[j] == lines[j];
    } else {
      j := n;
    }
  }

  /** No normalised domain is empty. */
  lemma {:induction false} NormaliseNonEmpty(lines: seq<string>, k: nat)
    requires k < |Normalise(lines)|
    ensures Normalise(lines)[k] != []
  {
    var j := NormaliseOrigin(lines, k);
    StripEmpty(lines[j]);
  }
}
