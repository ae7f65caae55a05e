/**
 The logger converter's precision: how many components of a logger name are printed,
 counted from the right.  A dot that ends the name does not separate components.
 */
module LoggerPrecision {
  import opened Wrappers

  const NPOS := 0xFFFF_FFFF_FFFF_FFFF

  /** Subtracting one from a size. */
  function Less(n: nat): nat {
    if n == 0 then NPOS else n - 1
  }

  /** rfind: the last dot at or before from. */
  function RFind(s: string, from: nat): (r: Option<nat>)
    ensures r.Some? ==> r.value < |s| && r.value <= from && s[r.value] == '.'
    ensures forall i :: (if r.Some? then r.value else -1) < i < |s| && i <= from ==> s[i] != '.'
    decreases from
  {
    if from < |s| && s[from] == '.' then Some(from)
    else if from == 0 then None
    else if from >= |s| then (if s == "" then None else RFind(s, |s| - 1))
    else RFind(s, from - 1)
  }

  /** Where the loop ends up after i more turns; none if it leaves early with the whole name. */
  function Scan(name: string, end: nat, i: nat): (r: Option<nat>)
    ensures i > 0 && r.Some? ==> r.value < |name|
    decreases i
  {
    if i == 0 then Some(end)
    else match RFind(name, Less(end))
      case None => None
      case Some(e) => Scan(name, e, i - 1)
  }

  function Converted(name: string, precision: int): string {
    if precision <= 0 then name
    else match Scan(name, Less(|name|), precision)
      case None => name
      case Some(e) => name[e + 1..]
  }

  method Convert(name: string, precision: int) returns (result: string)
    ensures result == Converted(name, precision)
  {
    if precision <= 0 {
      result := name;
    } else {
      var end: nat := Less(|name|);
      var i := precision;
      while i > 0
        invariant 0 <= i && Scan(name, end, i) == Scan(name, Less(|name|), precision)
        invariant i < precision ==> end < |name|
      {
        var dot := RFind(name, Less(end));
        match dot
        case None =>
          return name;
        case Some(e) =>
          end := e;
          i := i - 1;
      }
      result := name[end + 1..];
    }
  }

  // ----- The components from the right -----

  function Dots(s: string): nat {
    if s == "" then 0 else Dots(s[..|s| - 1]) + (if s[|s| - 1] == '.' then 1 else 0)
  }

  /** The name from k on is its last n components. */
  predicate LastComponents(name: string, n: nat, k: nat)
    requires k <= |name|
  {
    if name == "" then k == 0
    else if k == 0 then Dots(name[..|name| - 1]) < n
    else k < |name| && name[k - 1] == '.' && Dots(name[k..|name| - 1]) == n - 1
  }

  lemma {:induction false} DotsAdd(a: string, b: string)
    ensures Dots(a + b) == Dots(a) + Dots(b)
    decreases |b|
  {
    if b == "" {
      assert a + b == a;
    } else {
      var n := |b| - 1;
      DotsAdd(a, b[..n]);
      assert (a + b)[..|a + b| - 1] == a + b[..n];
    }
  }

  lemma {:induction false} NoDots(s: string)
    requires forall i :: 0 <= i < |s| ==> s[i] != '.'
    ensures Dots(s) == 0
  {
    if s != "" { NoDots(s[..|s| - 1]); }
  }

  lemma DotAt(name: string, a: nat, e: nat, b: nat)
    requires a <= e < b <= |name| && name[e] == '.'
    ensures Dots(name[a..b]) == Dots(name[a..e]) + 1 + Dots(name[e + 1..b])
  {
    var dot := name[e..e + 1];
    assert Dots(dot) == 1 by { assert dot[..0] == ""; }
    assert name[a..b] == name[a..e] + (dot + name[e + 1..b]);
    DotsAdd(name[a..e], dot + name[e + 1..b]);
    DotsAdd(dot, name[e + 1..b]);
  }

  /** One turn of the loop passes exactly one dot. */
  lemma {:induction false} PassesOne(name: string, end: nat)
    requires 0 < end <= |name|
    ensures match RFind(name, end - 1)
            case None => Dots(name[..end]) == 0
            case Some(e) => e < end && Dots(name[..end]) == Dots(name[..e]) + 1 && Dots(name[e + 1..end]) == 0
  {
    match RFind(name, end - 1)
    case None => NoDots(name[..end]);
    case Some(e) =>
      NoDots(name[e + 1..end]);
      DotAt(name, 0, e, end);
  }

  lemma {:induction false} ScanInside(name: string, end: nat, i: nat)
    requires end < |name| && 0 < i <= Dots(name[..end])
    ensures var r := Scan(name, end, i);
            r.Some? && r.value < end && name[r.value] == '.' && Dots(name[r.value + 1..end]) == i - 1
    decreases i
  {
    assert end > 0;
    PassesOne(name, end);
    var e := RFind(name, end - 1).value;
    assert Scan(name, end, i) == Scan(name, e, i - 1);
    if i > 1 {
      ScanInside(name, e, i - 1);
      DotAt(name, Scan(name, e, i - 1).value + 1, e, end);
    }
  }

  lemma {:induction false} ScanRunsOut(name: string, end: nat, i: nat)
    requires end < |name| && name[0] != '.' && i > Dots(name[..end]) && (end == 0 ==> |name| == 1)
    ensures Scan(name, end, i) == None
    decreases i
  {
    if end > 0 {
      PassesOne(name, end);
      match RFind(name, end - 1)
      case None =>
      case Some(e) => ScanRunsOut(name, e, i - 1);
    }
  }

  /** Past a leading dot the search starts again from the right, and so never fails. */
  lemma {:induction false} ScanWraps(name: string, end: nat, i: nat)
    requires name != "" && name[0] == '.'
    ensures Scan(name, end, i).Some?
    decreases i
  {
    if i > 0 { ScanWraps(name, RFind(name, Less(end)).value, i - 1); }
  }

  /** The last components are determined by their number. */
  lemma LastComponentsUnique(name: string, n: nat, k: nat, m: nat)
    requires n > 0 && k <= m <= |name| && LastComponents(name, n, k) && LastComponents(name, n, m)
    ensures k == m
  {
    if k < m {
      DotAt(name, k, m - 1, |name| - 1);
    }
  }

  /** The printed text is the last components of the name, unless the name begins with a dot and has fewer
      components than asked for. */
  lemma ConvertedIff(name: string, precision: int)
    requires precision > 0
    ensures (exists k: nat :: k <= |name| && LastComponents(name, precision, k) && Converted(name, precision) == name[k..])
            <==> !(name != "" && name[0] == '.' && precision > Dots(name[..|name| - 1]))
  {
    if name == "" {
      assert Scan(name, Less(|name|), precision) == None;
      assert LastComponents(name, precision, 0) && name[0..] == name;
    } else {
      var last := |name| - 1;
      if precision <= Dots(name[..last]) {
        ScanInside(name, last, precision);
        var e := Scan(name, last, precision).value;
        assert LastComponents(name, precision, e + 1);
      } else if name[0] != '.' {
        ScanRunsOut(name, last, precision);
        assert LastComponents(name, precision, 0) && name[0..] == name;
      } else {
        ScanWraps(name, last, precision);
        var e := Scan(name, last, precision).value;
        forall k: nat | k <= |name| && LastComponents(name, precision, k) ensures name[e + 1..] != name[k..] {
          assert LastComponents(name, precision, 0);
          LastComponentsUnique(name, precision, 0, k);
          assert k == 0 && |name[e + 1..]| < |name|;
        }
      }
    }
  }

  /** For instance, ".a.b" with three components prints "b". */
  lemma LeadingDotExample()
    ensures Converted(".a.b", 3) == "b"
  {
    var s := ".a.b";
    assert RFind(s, 2) == Some(2);
    assert RFind(s, 1) == Some(0);
    assert RFind(s, NPOS) == RFind(s, 3) == Some(2);
    assert Scan(s, 2, 2) == Scan(s, 0, 1);
    assert s[3..] == "b";
  }
}
