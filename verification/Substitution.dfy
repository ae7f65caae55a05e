/**
 Substitution of ${variables} in property values, without recursive expansion.
 */
module Substitution {
  /** The flags and the two places a variable is looked up in. */
  datatype Settings = Settings(
    emptyVars: bool, shadowEnvironment: bool, props: map<string, string>, env: map<string, string>)
  {
    function Property(key: string): string {
      if key in props then props[key] else ""
    }
    function Environment(key: string): string {
      if key in env then env[key] else ""
    }
    function Lookup(key: string): string {
      var value := if shadowEnvironment then Property(key) else "";
      if !shadowEnvironment || (!emptyVars && value == "") then Environment(key) else value
    }
    /** Whether a variable is replaced rather than left as it stands. */
    predicate Replaced(key: string) {
      emptyVars || Lookup(key) != ""
    }
  }

  /** The environment is not asked when properties shadow it and are set, or may be empty; without shadowing the
      properties are not asked at all.  A variable is replaced exactly when empty values are allowed or one of the
      places that count has a value. */
  lemma LookupPrecedence(c: Settings, key: string, props: map<string, string>, env: map<string, string>)
    ensures c.shadowEnvironment && (c.emptyVars || c.Property(key) != "")
            ==> c.(env := env).Lookup(key) == c.Lookup(key) == c.Property(key)
    ensures c.shadowEnvironment && !c.emptyVars && c.Property(key) == ""
            ==> c.(props := map[]).Lookup(key) == c.Lookup(key) == c.Environment(key)
    ensures !c.shadowEnvironment ==> c.(props := props).Lookup(key) == c.Lookup(key) == c.Environment(key)
    ensures c.Replaced(key) <==> c.emptyVars || c.Environment(key) != "" || (c.shadowEnvironment && c.Property(key) != "")
  {
  }

  // ----- The specification: a text is split once, and each variable is replaced on its own -----

  predicate OpensAt(s: string, i: nat) {
    i + 1 < |s| && s[i] == '$' && s[i + 1] == '{'
  }

  /** Text with no opening in it. */
  predicate IsText(s: string) {
    forall j :: 0 <= j < |s| ==> !OpensAt(s, j)
  }

  /** Text and the variable after it. */
  datatype Part = Part(text: string, key: string)

  /** The last text; or a text after which a variable is opened and never closed. */
  datatype Ending = Last(text: string) | Unclosed(text: string, tail: string)

  function PartSource(p: Part): string {
    p.text + ("${" + (p.key + "}"))
  }

  function Source(ps: seq<Part>): string {
    if ps == [] then "" else PartSource(ps[0]) + Source(ps[1..])
  }

  function EndingSource(e: Ending): string {
    match e
    case Last(text) => text
    case Unclosed(text, tail) => text + ("${" + tail)
  }

  predicate PartOk(p: Part) {
    IsText(p.text) && '}' !in p.key
  }

  predicate EndingOk(e: Ending) {
    IsText(e.text) && (e.Unclosed? ==> '}' !in e.tail)
  }

  /** val consists of these parts and this ending. */
  predicate IsSplit(val: string, ps: seq<Part>, e: Ending) {
    (forall i :: 0 <= i < |ps| ==> PartOk(ps[i])) && EndingOk(e) && val == Source(ps) + EndingSource(e)
  }

  /** The value of one variable; one that is not replaced stays as it was written. */
  function Value(c: Settings, key: string): string {
    if c.Replaced(key) then c.Lookup(key) else "${" + (key + "}")
  }

  function Expanded(c: Settings, ps: seq<Part>): string {
    if ps == [] then "" else ps[0].text + Value(c, ps[0].key) + Expanded(c, ps[1..])
  }

  predicate AnyReplaced(c: Settings, ps: seq<Part>) {
    exists i :: 0 <= i < |ps| && c.Replaced(ps[i].key)
  }

  /** What the caller gets for a text of these parts and this ending. */
  predicate IsResult(c: Settings, val: string, ps: seq<Part>, e: Ending, dest: string, changed: bool) {
    match e
    case Last(text) => dest == Expanded(c, ps) + text && changed == AnyReplaced(c, ps)
    case Unclosed(_, _) => dest == val && !changed
  }

  // ----- There is only one way to split a text -----

  lemma Assoc(a: string, b: string, c: string)
    ensures a + b + c == a + (b + c)
  {
  }

  /** The first opening is where the first text ends. */
  lemma SameText(a: string, x: string, b: string, y: string)
    requires IsText(a) && IsText(b) && a + ("${" + x) == b + ("${" + y)
    ensures a == b && x == y
  {
    var s := a + ("${" + x);
    assert OpensAt(s, |a|) && OpensAt(s, |b|);
    assert !OpensAt(b, |a|) && !OpensAt(a, |b|);
    assert |a| == |b|;
    assert a == s[..|a|] == b && x == s[|a| + 2..] == y;
  }

  lemma NoOpening(a: string, b: string, y: string)
    requires IsText(a)
    ensures a != b + ("${" + y)
  {
    assert OpensAt(b + ("${" + y), |b|);
  }

  /** The first closing is where the key ends. */
  lemma SameKey(k: string, x: string, l: string, y: string)
    requires '}' !in k && '}' !in l && k + ("}" + x) == l + ("}" + y)
    ensures k == l && x == y
  {
    var s := k + ("}" + x);
    assert s[|k|] == '}' && s[|l|] == '}';
    assert |k| == |l|;
    assert k == s[..|k|] && l == s[..|l|] && x == s[|k| + 1..] && y == s[|l| + 1..];
  }

  lemma NoClosing(k: string, x: string, tail: string)
    requires '}' !in tail
    ensures k + ("}" + x) != tail
  {
    assert '}' in k + ("}" + x) by { assert (k + ("}" + x))[|k|] == '}'; }
  }

  /** A text that begins with a part, opened up. */
  lemma Opened(p: Part, rest: string)
    ensures PartSource(p) + rest == p.text + ("${" + (p.key + ("}" + rest)))
  {
    Assoc(p.text, "${" + (p.key + "}"), rest);
    Assoc("${", p.key + "}", rest);
    Assoc(p.key, "}", rest);
  }

  lemma PartThenEnding(p: Part, rest: string, e: Ending)
    requires PartOk(p) && EndingOk(e)
    ensures PartSource(p) + rest != EndingSource(e)
  {
    Opened(p, rest);
    match e
    case Last(text) => NoOpening(text, p.text, p.key + ("}" + rest));
    case Unclosed(text, tail) =>
      if PartSource(p) + rest == EndingSource(e) {
        SameText(p.text, p.key + ("}" + rest), text, tail);
        NoClosing(p.key, rest, tail);
      }
  }

  lemma SameEnding(e: Ending, f: Ending)
    requires EndingOk(e) && EndingOk(f) && EndingSource(e) == EndingSource(f)
    ensures e == f
  {
    if e.Last? && f.Unclosed? { NoOpening(e.text, f.text, f.tail); }
    if e.Unclosed? && f.Last? { NoOpening(f.text, e.text, e.tail); }
    if e.Unclosed? && f.Unclosed? { SameText(e.text, e.tail, f.text, f.tail); }
  }

  lemma SamePart(p: Part, x: string, q: Part, y: string)
    requires PartOk(p) && PartOk(q) && PartSource(p) + x == PartSource(q) + y
    ensures p == q && x == y
  {
    Opened(p, x);
    Opened(q, y);
    SameText(p.text, p.key + ("}" + x), q.text, q.key + ("}" + y));
    SameKey(p.key, x, q.key, y);
  }

  function Rest(ps: seq<Part>, e: Ending): string
    requires ps != []
  {
    Source(ps[1..]) + EndingSource(e)
  }

  lemma TakePart(val: string, ps: seq<Part>, e: Ending)
    requires IsSplit(val, ps, e) && ps != []
    ensures PartOk(ps[0]) && val == PartSource(ps[0]) + Rest(ps, e) && IsSplit(Rest(ps, e), ps[1..], e)
  {
    Assoc(PartSource(ps[0]), Source(ps[1..]), EndingSource(e));
  }

  lemma NoPart(val: string, e: Ending)
    requires IsSplit(val, [], e)
    ensures val == EndingSource(e)
  {
  }

  /** A text is split in one way only. */
  lemma {:induction false} SplitUnique(val: string, ps: seq<Part>, e: Ending, qs: seq<Part>, f: Ending)
    requires IsSplit(val, ps, e) && IsSplit(val, qs, f)
    ensures ps == qs && e == f
    decreases |ps|
  {
    if ps != [] { TakePart(val, ps, e); } else { NoPart(val, e); }
    if qs != [] { TakePart(val, qs, f); } else { NoPart(val, f); }
    if ps == [] && qs == [] {
      SameEnding(e, f);
    } else if ps == [] {
      PartThenEnding(qs[0], Rest(qs, f), e);
    } else if qs == [] {
      PartThenEnding(ps[0], Rest(ps, e), f);
    } else {
      SamePart(ps[0], Rest(ps, e), qs[0], Rest(qs, f));
      SplitUnique(Rest(ps, e), ps[1..], e, qs[1..], f);
      assert ps == [ps[0]] + ps[1..] && qs == [qs[0]] + qs[1..];
    }
  }

  /** When no variable is replaced the text stays as it was. */
  lemma {:induction false} NothingReplaced(c: Settings, ps: seq<Part>)
    requires !AnyReplaced(c, ps)
    ensures Expanded(c, ps) == Source(ps)
  {
    if ps != [] {
      assert !c.Replaced(ps[0].key);
      assert !AnyReplaced(c, ps[1..]) by {
        forall i | 0 <= i < |ps[1..]| ensures !c.Replaced(ps[1..][i].key) { assert ps[1..][i] == ps[i + 1]; }
      }
      NothingReplaced(c, ps[1..]);
    }
  }

  // ----- The loop over the text -----

  lemma {:induction false} SourceSnoc(ps: seq<Part>, p: Part)
    ensures Source(ps + [p]) == Source(ps) + PartSource(p)
  {
    if ps == [] {
      assert ps + [p] == [p] && [p][1..] == [];
      assert PartSource(p) + "" == PartSource(p) && "" + PartSource(p) == PartSource(p);
    } else {
      SourceSnoc(ps[1..], p);
      assert (ps + [p])[1..] == ps[1..] + [p];
      Assoc(PartSource(ps[0]), Source(ps[1..]), PartSource(p));
    }
  }

  lemma {:induction false} ExpandedSnoc(c: Settings, ps: seq<Part>, p: Part)
    ensures Expanded(c, ps + [p]) == Expanded(c, ps) + (p.text + Value(c, p.key))
  {
    var v := p.text + Value(c, p.key);
    if ps == [] {
      assert ps + [p] == [p] && [p][1..] == [];
      assert v + "" == v && "" + v == v;
    } else {
      ExpandedSnoc(c, ps[1..], p);
      assert (ps + [p])[1..] == ps[1..] + [p];
      Assoc(ps[0].text + Value(c, ps[0].key), Expanded(c, ps[1..]), v);
    }
  }

  method FindOpen(s: string, i: nat) returns (r: nat)
    requires i <= |s|
    ensures i <= r <= |s| && (r < |s| ==> OpensAt(s, r)) && IsText(s[i..r])
  {
    r := i;
    while r < |s| && !(r + 1 < |s| && s[r] == '$' && s[r + 1] == '{')
      invariant i <= r <= |s| && forall j :: i <= j < r ==> !OpensAt(s, j)
    {
      r := r + 1;
    }
    forall j | 0 <= j < r - i ensures !OpensAt(s[i..r], j) {
      assert !OpensAt(s, i + j);
    }
  }

  method FindClose(s: string, i: nat) returns (r: nat)
    requires i <= |s|
    ensures i <= r <= |s| && (r < |s| ==> s[r] == '}') && '}' !in s[i..r]
  {
    r := i;
    while r < |s| && s[r] != '}'
      invariant i <= r <= |s| && forall j :: i <= j < r ==> s[j] != '}'
    {
      r := r + 1;
    }
  }

  /** Before i the pattern is what the parts passed so far expand to, from i on it is still as it was. */
  ghost predicate Passed(c: Settings, val: string, ps: seq<Part>, pattern: string, i: nat, changed: bool) {
    && i <= |pattern| && (forall j :: 0 <= j < |ps| ==> PartOk(ps[j]))
    && val == Source(ps) + pattern[i..] && pattern[..i] == Expanded(c, ps) && changed == AnyReplaced(c, ps)
  }

  lemma PassOne(c: Settings, val: string, ps: seq<Part>, pattern: string, i: nat, changed: bool,
                p: Part, rest: string, pattern': string, i': nat)
    requires Passed(c, val, ps, pattern, i, changed) && PartOk(p)
    requires pattern[i..] == PartSource(p) + rest && i' <= |pattern'|
    requires pattern'[..i'] == pattern[..i] + (p.text + Value(c, p.key)) && pattern'[i'..] == rest
    ensures Passed(c, val, ps + [p], pattern', i', changed || c.Replaced(p.key))
  {
    SourceSnoc(ps, p);
    ExpandedSnoc(c, ps, p);
    Assoc(Source(ps), PartSource(p), rest);
    var qs := ps + [p];
    assert qs[|ps|] == p && forall j | 0 <= j < |ps| :: qs[j] == ps[j];
  }

  lemma CutAt(s: string, i: nat, start: nat, end: nat)
    requires i <= start && start + 2 <= end < |s| && OpensAt(s, start) && s[end] == '}'
    ensures s[i..] == PartSource(Part(s[i..start], s[start + 2..end])) + s[end + 1..]
    ensures s[..start] + ("${" + (s[start + 2..end] + "}")) == s[..end + 1]
  {
    assert s[start..end + 1] == "${" + (s[start + 2..end] + "}");
    assert s[i..] == s[i..start] + s[start..end + 1] + s[end + 1..];
    assert s[..end + 1] == s[..start] + s[start..end + 1];
  }

  lemma Moved(c: Settings, s: string, i: nat, start: nat, end: nat, s': string, i': nat)
    requires i <= start && start + 2 <= end < |s| && OpensAt(s, start) && s[end] == '}'
    requires var key := s[start + 2..end];
             if c.Replaced(key) then s' == s[..start] + c.Lookup(key) + s[end + 1..] && i' == start + |c.Lookup(key)|
             else s' == s && i' == end + 1
    ensures var p := Part(s[i..start], s[start + 2..end]);
            && s[i..] == PartSource(p) + s[end + 1..] && i' <= |s'| && s'[i'..] == s[end + 1..]
            && s'[..i'] == s[..i] + (p.text + Value(c, p.key))
  {
    CutAt(s, i, start, end);
    var p := Part(s[i..start], s[start + 2..end]);
    assert s'[..i'] == s[..start] + Value(c, p.key);
    assert s[..start] == s[..i] + s[i..start];
    Assoc(s[..i], s[i..start], Value(c, p.key));
  }

  lemma Advance(c: Settings, val: string, ps: seq<Part>, s: string, i: nat, changed: bool, start: nat, end: nat,
                s': string, i': nat)
    requires Passed(c, val, ps, s, i, changed) && FoundAt(s, i, start, end) && end < |s|
    requires var key := s[start + 2..end];
             if c.Replaced(key) then s' == s[..start] + c.Lookup(key) + s[end + 1..] && i' == start + |c.Lookup(key)|
             else s' == s && i' == end + 1
    ensures var key := s[start + 2..end];
            && Passed(c, val, ps + [Part(s[i..start], key)], s', i', changed || c.Replaced(key))
            && |s'| - i' == |s| - end - 1
  {
    KeyOk(s, start, end);
    Moved(c, s, i, start, end, s', i');
    PassOne(c, val, ps, s, i, changed, Part(s[i..start], s[start + 2..end]), s[end + 1..], s', i');
  }

  lemma Untouched(c: Settings, val: string)
    ensures Passed(c, val, [], val, 0, false)
  {
    assert val == "" + val[0..];
  }

  method LookUp(c: Settings, key: string) returns (replacement: string)
    ensures replacement == c.Lookup(key)
    ensures replacement in {"", c.Property(key), c.Environment(key)}
    ensures replacement == "" ==> c.emptyVars || c.Environment(key) == ""
  {
    replacement := "";
    if c.shadowEnvironment {
      replacement := c.Property(key);
    }
    if !c.shadowEnvironment || (!c.emptyVars && replacement == "") {
      replacement := c.Environment(key);
    }
  }

  lemma AtEnd(c: Settings, val: string, ps: seq<Part>, pattern: string, i: nat, changed: bool)
    requires Passed(c, val, ps, pattern, i, changed) && IsText(pattern[i..|pattern|])
    ensures exists ps, e :: IsSplit(val, ps, e) && IsResult(c, val, ps, e, pattern, changed)
  {
    var e := Last(pattern[i..]);
    assert pattern[i..|pattern|] == pattern[i..] && pattern == pattern[..i] + pattern[i..];
    assert IsSplit(val, ps, e) && IsResult(c, val, ps, e, pattern, changed);
  }

  lemma OpenTail(s: string, i: nat, start: nat)
    requires i <= start && OpensAt(s, start)
    ensures s[i..] == s[i..start] + ("${" + s[start + 2..|s|])
  {
    assert s[start..] == "${" + s[start + 2..|s|];
  }

  lemma AtUnclosed(c: Settings, val: string, ps: seq<Part>, pattern: string, i: nat, changed: bool, start: nat)
    requires Passed(c, val, ps, pattern, i, changed) && i <= start <= |pattern| && IsText(pattern[i..start])
    requires OpensAt(pattern, start) && '}' !in pattern[start..|pattern|]
    ensures exists ps, e :: IsSplit(val, ps, e) && IsResult(c, val, ps, e, val, false)
  {
    KeyOk(pattern, start, |pattern|);
    OpenTail(pattern, i, start);
    var e := Unclosed(pattern[i..start], pattern[start + 2..|pattern|]);
    assert IsSplit(val, ps, e) && IsResult(c, val, ps, e, val, false);
  }

  lemma KeyOk(s: string, start: nat, end: nat)
    requires start + 2 <= end <= |s| && '}' !in s[start..end]
    ensures '}' !in s[start + 2..end]
  {
    assert forall x | x in s[start + 2..end] :: x in s[start..end];
  }

  /** From i on, the first variable opens at start and closes at end; both are |s| if it is missing. */
  predicate FoundAt(s: string, i: nat, start: nat, end: nat) {
    && i <= start <= end <= |s| && IsText(s[i..start])
    && (start < |s| ==> OpensAt(s, start) && start + 2 <= end && '}' !in s[start..end])
    && (end < |s| ==> start < |s| && s[end] == '}')
  }

  method NextVariable(s: string, i: nat) returns (start: nat, end: nat)
    requires i <= |s|
    ensures FoundAt(s, i, start, end)
  {
    start := FindOpen(s, i);
    if start == |s| {
      return start, start;
    }
    end := FindClose(s, start);
  }

  /** Substitute a variable in place and move beyond the substituted part; or move beyond the variable. */
  method PassVariable(c: Settings, pattern: string, start: nat, end: nat)
    returns (pattern': string, i: nat, replaced: bool)
    requires start + 2 <= end < |pattern|
    ensures var key := pattern[start + 2..end];
            && replaced == c.Replaced(key)
            && if replaced then pattern' == pattern[..start] + c.Lookup(key) + pattern[end + 1..]
                                && i == start + |c.Lookup(key)|
               else pattern' == pattern && i == end + 1
  {
    var replacement := LookUp(c, pattern[start + 2..end]);
    if c.emptyVars || replacement != "" {
      pattern' := pattern[..start] + replacement + pattern[end + 1..];
      i, replaced := start + |replacement|, true;
    } else {
      pattern', i, replaced := pattern, end + 1, false;
    }
  }

  /** The result is that of the one way to split the text: each variable is replaced on its own, so that
      nothing substituted is looked at again, and changed tells whether any was. */
  method SubstVars(c: Settings, val: string) returns (dest: string, changed: bool)
    ensures exists ps, e :: IsSplit(val, ps, e) && IsResult(c, val, ps, e, dest, changed)
  {
    var i: nat := 0;
    var pattern := val;
    changed := false;
    ghost var ps: seq<Part> := [];
    Untouched(c, val);
    while true
      invariant Passed(c, val, ps, pattern, i, changed)
      decreases |pattern| - i
    {
      var varStart, varEnd := NextVariable(pattern, i);
      if varEnd == |pattern| {
        dest, changed := Finish(c, val, ps, pattern, i, changed, varStart);
        return;
      }
      var pattern', i', replaced := PassVariable(c, pattern, varStart, varEnd);
      Advance(c, val, ps, pattern, i, changed, varStart, varEnd, pattern', i');
      ps := ps + [Part(pattern[i..varStart], pattern[varStart + 2..varEnd])];
      pattern, i, changed := pattern', i', changed || replaced;
    }
  }

  /** No variable is left, or the next one is not closed. */
  method Finish(c: Settings, val: string, ghost ps: seq<Part>, pattern: string, i: nat, changed: bool, start: nat)
    returns (dest: string, result: bool)
    requires Passed(c, val, ps, pattern, i, changed) && FoundAt(pattern, i, start, |pattern|)
    ensures exists ps, e :: IsSplit(val, ps, e) && IsResult(c, val, ps, e, dest, result)
  {
    if start == |pattern| {
      AtEnd(c, val, ps, pattern, i, changed);
      return pattern, changed;
    } else {
      AtUnclosed(c, val, ps, pattern, i, changed, start);
      return val, false;
    }
  }
}
