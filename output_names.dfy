/**
 * The output file name of a domain: `os.path.splitext(domain)[0] + ".txt"`.
 * `splitext` is modelled on the POSIX path rules (separator `/`, no
 * alternative separator, extension separator `.`).
 */
module OutputNames {

  /** Python's `str.rfind` for one character: the last index of `c` in `p`, or -1. */
  function LastIndex(p: string, c: char): (r: int)
    ensures -1 <= r < |p|
    ensures r >= 0 ==> p[r] == c
    ensures forall i :: r < i < |p| ==> p[i] != c
  {
    if p == [] then -1
    else if p[|p| - 1] == c then |p| - 1
    else LastIndex(p[..|p| - 1], c)
  }

  /** Every character of `p[lo..hi]` is a dot. */
  predicate AllDots(p: string, lo: nat, hi: nat)
    requires lo <= hi <= |p|
  {
    forall i :: lo <= i < hi ==> p[i] == '.'
  }

  /**
   * `os.path.splitext(p)`: the text after the last dot of the last path
   * component is split off, dot included, unless only dots precede that dot
   * within the component (a leading dot does not start an extension).
   */
  function SplitExt(p: string): (r: (string, string))
    ensures r.0 + r.1 == p
    ensures r.1 == [] || (r.1[0] == '.' && forall i :: 1 <= i < |r.1| ==> r.1[i] != '.' && r.1[i] != '/')
  {
    var sep := LastIndex(p, '/');
    var dot := LastIndex(p, '.');
    if dot > sep && !AllDots(p, sep + 1, dot) then
      assert p[..dot] + p[dot..] == p;
      (p[..dot], p[dot..])
    else
      assert p + [] == p;
      (p, [])
  }

  /**
   * Position `d` of `p` starts an extension: it holds a dot, no dot or slash
   * follows it, and some character other than a dot stands before it in the
   * same path component.
   */
  ghost predicate ExtensionAt(p: string, d: int) {
    && 0 <= d < |p| && p[d] == '.'
    && (forall i :: d < i < |p| ==> p[i] != '.' && p[i] != '/')
    && (exists i :: 0 <= i < d && p[i] != '.' && forall m :: i <= m < d ==> p[m] != '/')
  }

  /**
   * `SplitExt` splits exactly at the extension position, which is unique;
   * without one the whole path is the root.
   */
  lemma SplitExtAtExtension(p: string, d: int)
    ensures ExtensionAt(p, d) <==> (SplitExt(p).1 != [] && d == |SplitExt(p).0|)
  {
    var sep := LastIndex(p, '/');
    var dot := LastIndex(p, '.');
    if ExtensionAt(p, d) {
      var i :| 0 <= i < d && p[i] != '.' && forall m :: i <= m < d ==> p[m] != '/';
      assert dot == d;
      assert sep < i;
      assert !AllDots(p, sep + 1, dot);
    }
    if SplitExt(p).1 != [] && d == |SplitExt(p).0| {
      assert dot > sep && !AllDots(p, sep + 1, dot);
      var i :| sep + 1 <= i < dot && p[i] != '.';
      assert forall m :: i <= m < d ==> p[m] != '/';
    }
  }

  /** `f"{os.path.splitext(domain)[0]}.txt"`: the file the results for `domain` go to. */
  function OutputName(domain: string): string {
    SplitExt(domain).0 + ".txt"
  }

  /** With an extension at `d`, the name is the text before `d` followed by `.txt`. */
  lemma OutputNameDropsExtension(domain: string, d: int)
    requires ExtensionAt(domain, d)
    ensures OutputName(domain) == domain[..d] + ".txt"
  {
    SplitExtAtExtension(domain, d);
  }

  /** Without an extension, the name is the whole domain followed by `.txt`. */
  lemma OutputNameKeepsAll(domain: string)
    requires forall d :: 0 <= d < |domain| ==> !ExtensionAt(domain, d)
    ensures OutputName(domain) == domain + ".txt"
  {
    if SplitExt(domain).1 != [] {
      SplitExtAtExtension(domain, |SplitExt(domain).0|);
    }
  }

  /** A domain without a dot keeps its full text. */
  lemma OutputNameWithoutDot(domain: string)
    requires forall i :: 0 <= i < |domain| ==> domain[i] != '.'
    ensures OutputName(domain) == domain + ".txt"
  {
    OutputNameKeepsAll(domain);
  }

  /** A domain whose only dot is its first character keeps its full text too. */
  lemma OutputNameLeadingDot(domain: string)
    requires |domain| > 0 && domain[0] == '.'
    requires forall i :: 1 <= i < |domain| ==> domain[i] != '.'
    ensures OutputName(domain) == domain + ".txt"
  {
    OutputNameKeepsAll(domain);
  }

  /** `example.com` is saved to `example.txt`. */
  lemma OutputNameExample()
    ensures OutputName("example.com") == "example.txt"
  {
    var d := "example.com";
    assert d[0] != '.' && forall m :: 0 <= m < 7 ==> d[m] != '/';
    assert ExtensionAt(d, 7);
    OutputNameDropsExtension(d, 7);
  }

  /** Only the last label is dropped: `sub.example.co.uk` is saved to `sub.example.co.txt`. */
  lemma OutputNameExampleSubdomain()
    ensures OutputName("sub.example.co.uk") == "sub.example.co.txt"
  {
    var d := "sub.example.co.uk";
    assert d[0] != '.' && forall m :: 0 <= m < 14 ==> d[m] != '/';
    assert ExtensionAt(d, 14);
    OutputNameDropsExtension(d, 14);
  }

  /** `localhost` and `.com` have no extension and keep their full text. */
  lemma OutputNameExampleNoExtension()
    ensures OutputName("localhost") == "localhost.txt"
    ensures OutputName(".com") == ".com.txt"
  {
    OutputNameWithoutDot("localhost");
    OutputNameLeadingDot(".com");
  }

  /** Different domains can share an output name, and then their results go to one file. */
  lemma OutputNamesCollide()
    ensures OutputName("example.com") == OutputName("example.org")
  {
    OutputNameExample();
    var d := "example.org";
    assert d[0] != '.' && forall m :: 0 <= m < 7 ==> d[m] != '/';
    assert ExtensionAt(d, 7);
    OutputNameDropsExtension(d, 7);
  }
}
