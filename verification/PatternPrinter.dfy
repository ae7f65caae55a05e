/**
 Printing converters as a conversion pattern, and the proof that parsing undoes it.
 */
module PatternPrinter {
  import opened Decimals
  import opened Wrappers
  import opened PatternParser

  // ----- The printer -----

  function Escape(text: string): string {
    if text == "" then "" else (if text[0] == '%' then "%%" else [text[0]]) + Escape(text[1..])
  }

  function Integer(n: int): string {
    if n < 0 then "-" + Decimal(-n) else Decimal(n)
  }

  function FieldLetter(f: Field): char {
    match f
    case Thread => 't'
    case Thread2 => 'T'
    case Process => 'i'
    case LogLevel => 'p'
    case Message => 'm'
    case Newline => 'n'
    case Basename => 'b'
    case File => 'F'
    case Line => 'L'
    case Location => 'l'
    case Function => 'M'
  }

  function Letter(conv: Converter): char
    requires !conv.Literal?
  {
    match conv
    case Basic(_, f) => FieldLetter(f)
    case Logger(_, _) => 'c'
    case Date(_, _, gmt) => if gmt then 'd' else 'D'
    case Env(_, _) => 'E'
    case Hostname(_, fqdn) => if fqdn then 'H' else 'h'
    case Relative(_) => 'r'
    case Ndc(_, _) => 'x'
    case Mdc(_, _) => 'X'
  }

  function OptionText(conv: Converter): string {
    match conv
    case Logger(_, precision) => Integer(precision)
    case Date(_, format, _) => format
    case Env(_, key) => key
    case Mdc(_, key) => key
    case _ => ""
  }

  /** The maximum is left out when it is the default. */
  function MaxText(info: FormattingInfo): string {
    if info.maxLen == MAX_SIZE && info.trimStart then ""
    else "." + (if info.trimStart then "" else "-") + Decimal(info.maxLen)
  }

  function MinText(info: FormattingInfo): string {
    if info.minLen < 0 then "" else Decimal(info.minLen)
  }

  function Print(conv: Converter): string {
    if conv.Literal? then Escape(conv.text)
    else
      var tail := if TakesOption(Letter(conv)) then "{" + OptionText(conv) + "}" else "";
      "%" + ((if conv.info.leftAlign then "-" else "") + (MinText(conv.info) + (MaxText(conv.info) + ([Letter(conv)] + tail))))
  }

  function PrintAll(l: seq<Converter>): string {
    if l == [] then "" else Print(l[0]) + PrintAll(l[1..])
  }

  predicate InfoOk(info: FormattingInfo) {
    -1 <= info.minLen && info.maxLen <= MAX_SIZE
  }

  /** What the parser can produce: options without a closing brace, and never an empty date format. */
  predicate Printable(depth: nat, conv: Converter) {
    match conv
    case Literal(_) => true
    case Basic(info, _) => InfoOk(info)
    case Logger(info, _) => InfoOk(info)
    case Date(info, format, _) => InfoOk(info) && format != "" && '}' !in format
    case Env(info, key) => InfoOk(info) && '}' !in key
    case Hostname(info, _) => InfoOk(info)
    case Relative(info) => InfoOk(info)
    case Ndc(info, d) => InfoOk(info) && d == depth
    case Mdc(info, key) => InfoOk(info) && '}' !in key
  }

  ghost predicate AllPrintable(depth: nat, l: seq<Converter>) {
    forall i :: 0 <= i < |l| ==> Printable(depth, l[i])
  }

  // ----- Literals run together -----

  /** Adjacent literals joined, empty ones dropped; literal is what has been collected so far. */
  function MergeAfter(literal: string, l: seq<Converter>): seq<Converter>
    decreases |l|
  {
    if l == [] then Flush(literal)
    else if l[0].Literal? then MergeAfter(literal + l[0].text, l[1..])
    else Flush(literal) + [l[0]] + MergeAfter("", l[1..])
  }

  function Merge(l: seq<Converter>): seq<Converter> {
    MergeAfter("", l)
  }

  /** No literal is empty and no two are adjacent. */
  predicate Normal(l: seq<Converter>) {
    && (forall i :: 0 <= i < |l| ==> l[i] != Literal(""))
    && (forall i :: 0 < i < |l| ==> !(l[i - 1].Literal? && l[i].Literal?))
  }

  lemma {:induction false} MergeAfterNormal(literal: string, l: seq<Converter>)
    ensures Normal(MergeAfter(literal, l))
    ensures literal == "" && l != [] && !l[0].Literal? ==> MergeAfter(literal, l) != [] && !MergeAfter(literal, l)[0].Literal?
    decreases |l|
  {
    if l != [] {
      if l[0].Literal? {
        MergeAfterNormal(literal + l[0].text, l[1..]);
      } else {
        MergeAfterNormal("", l[1..]);
      }
    }
  }

  lemma {:induction false} MergeOfNormal(l: seq<Converter>)
    requires Normal(l)
    ensures Merge(l) == l
    decreases |l|
  {
    if l != [] {
      if l[0].Literal? {
        assert "" + l[0].text == l[0].text;
        if |l| > 1 {
          assert l[1..][0] == l[1] && l[1..][1..] == l[2..];
          NormalTail(l, 2);
          MergeOfNormal(l[2..]);
          assert MergeAfter("", l) == MergeAfter(l[0].text, l[1..]);
          assert MergeAfter(l[0].text, l[1..]) == Flush(l[0].text) + [l[1]] + MergeAfter("", l[2..]);
        }
      } else {
        NormalTail(l, 1);
        MergeOfNormal(l[1..]);
      }
    }
  }

  lemma NormalTail(l: seq<Converter>, n: nat)
    requires Normal(l) && n <= |l|
    ensures Normal(l[n..])
  {
    forall i | 0 < i < |l[n..]| ensures !(l[n..][i - 1].Literal? && l[n..][i].Literal?) {
      assert !(l[n + i - 1].Literal? && l[n + i].Literal?);
    }
  }

  // ----- Numbers -----

  lemma {:induction false} AccumulateSnoc(v: nat, s: string, c: char)
    requires AllDigits(s) && IsDigit(c)
    ensures AllDigits(s + [c]) && Accumulate(v, s + [c]) == Accumulate(v, s) * 10 + DigitValue(c)
    decreases |s|
  {
    if s != [] {
      assert (s + [c])[1..] == s[1..] + [c];
      AccumulateSnoc(v * 10 + DigitValue(s[0]), s[1..], c);
    } else {
      assert s + [c] == [c];
      assert [c][1..] == [];
    }
  }

  lemma {:induction false} AccumulateNumber(s: string)
    requires AllDigits(s)
    ensures Accumulate(0, s) == Number(s)
    decreases |s|
  {
    if s != [] {
      var n := |s| - 1;
      AccumulateNumber(s[..n]);
      AccumulateSnoc(0, s[..n], s[n]);
      assert s == s[..n] + [s[n]];
    }
  }

  lemma AccumulateDecimal(n: nat)
    ensures Accumulate(0, Decimal(n)) == n
  {
    AccumulateNumber(Decimal(n));
    NumberOfDecimal(n);
  }

  lemma {:induction false} LeadingOfDigits(s: string)
    requires AllDigits(s)
    ensures LeadingDigits(s) == s
  {
    if s != [] { LeadingOfDigits(s[1..]); }
  }

  /** std::atoi reads back what was printed. */
  lemma AtoiOfInteger(n: int)
    ensures Atoi(Integer(n)) == n && '}' !in Integer(n) && Integer(n) != ""
  {
    var d := Decimal(if n < 0 then -n else n);
    LeadingOfDigits(d);
    AccumulateDecimal(if n < 0 then -n else n);
    assert n < 0 ==> Integer(n)[1..] == d;
    assert IsDigit(d[0]);
  }

  // ----- One piece of text at a time -----

  lemma Assoc(a: string, b: string, c: string)
    ensures a + b + c == a + (b + c)
  {
  }

  lemma HeadFirst(s: string, before: string, after: string)
    requires s != ""
    ensures s + after == [s[0]] + (s[1..] + after) && before + [s[0]] + s[1..] == before + s
  {
    assert s == [s[0]] + s[1..];
    Assoc([s[0]], s[1..], after);
    Assoc(before, [s[0]], s[1..]);
  }

  lemma OnePercent(depth: nat, rest: string, literal: string, info: FormattingInfo)
    ensures Parsed(depth, ['%', '%'] + rest, InLiteral, literal, info)
            == Parsed(depth, rest, InLiteral, literal + ['%'], info)
  {
    var s := ['%', '%'] + rest;
    assert s[1..][0] == '%' && s[1..][1..] == rest;
  }

  lemma OneCharacter(depth: nat, c: char, rest: string, literal: string, info: FormattingInfo)
    requires c != '%'
    ensures Parsed(depth, [c] + rest, InLiteral, literal, info)
            == Parsed(depth, rest, InLiteral, literal + [c], info)
  {
    var s := [c] + rest;
    assert s[0] == c && s[1..] == rest;
  }

  lemma {:induction false} ParseEscaped(depth: nat, text: string, rest: string, literal: string, info: FormattingInfo)
    ensures Parsed(depth, Escape(text) + rest, InLiteral, literal, info)
            == Parsed(depth, rest, InLiteral, literal + text, info)
    decreases |text|
  {
    if text == "" {
      assert Escape(text) + rest == rest && literal + text == literal;
    } else {
      var c, tail := text[0], Escape(text[1..]) + rest;
      ParseEscaped(depth, text[1..], rest, literal + [c], info);
      HeadFirst(text, literal, rest);
      Assoc(if c == '%' then "%%" else [c], Escape(text[1..]), rest);
      if c == '%' {
        OnePercent(depth, tail, literal, info);
      } else {
        OneCharacter(depth, c, tail, literal, info);
      }
    }
  }

  lemma OneMoreMin(depth: nat, c: char, rest: string, literal: string, info: FormattingInfo)
    requires IsDigit(c)
    ensures Parsed(depth, [c] + rest, InMin, literal, info)
            == Parsed(depth, rest, InMin, literal + [c], info.(minLen := info.minLen * 10 + DigitValue(c)))
  {
    var s := [c] + rest;
    assert s[0] == c && s[1..] == rest;
  }

  lemma {:induction false} ParseMoreMin(depth: nat, digits: string, rest: string, literal: string, info: FormattingInfo)
    requires AllDigits(digits) && info.minLen >= 0
    ensures Parsed(depth, digits + rest, InMin, literal, info)
            == Parsed(depth, rest, InMin, literal + digits, info.(minLen := Accumulate(info.minLen, digits)))
    decreases |digits|
  {
    if digits == "" {
      assert digits + rest == rest && literal + digits == literal;
    } else {
      HeadFirst(digits, literal, rest);
      OneMoreMin(depth, digits[0], digits[1..] + rest, literal, info);
      ParseMoreMin(depth, digits[1..], rest, literal + [digits[0]],
                   info.(minLen := info.minLen * 10 + DigitValue(digits[0])));
    }
  }

  const SIZES := MAX_SIZE + 1

  function Wrap(n: nat): nat {
    n % SIZES
  }

  lemma RemainderIs(m: int, y: int, q: int, r: int)
    requires 0 <= r < m && y == q * m + r
    ensures y % m == r
  {
    var k := y / m - q;
    assert k * m == r - y % m;
    assert k > 0 ==> k * m >= m;
    assert k < 0 ==> k * m <= -m;
  }

  lemma DigitWraps(m: int, v: nat, w: nat, d: nat)
    requires m > 0 && v % m == w % m
    ensures (v * 10 + d) % m == (w * 10 + d) % m
  {
    var x, k := w * 10 + d, v / m - w / m;
    assert v == w + k * m;
    assert v * 10 + d == (x / m + 10 * k) * m + x % m;
    RemainderIs(m, v * 10 + d, x / m + 10 * k, x % m);
  }

  lemma {:induction false} AccumulateWraps(v: nat, w: nat, s: string)
    requires AllDigits(s) && Wrap(v) == Wrap(w)
    ensures Wrap(Accumulate(v, s)) == Wrap(Accumulate(w, s))
    decreases |s|
  {
    if s != [] {
      var d := DigitValue(s[0]);
      DigitWraps(SIZES, v, w, d);
      AccumulateWraps(v * 10 + d, w * 10 + d, s[1..]);
    }
  }

  lemma WrapTwice(v: nat)
    ensures Wrap(Wrap(v)) == Wrap(v)
    ensures v <= MAX_SIZE ==> Wrap(v) == v
  {
  }

  lemma OneMoreMax(depth: nat, c: char, rest: string, literal: string, info: FormattingInfo)
    requires IsDigit(c)
    ensures Parsed(depth, [c] + rest, InMax, literal, info)
            == Parsed(depth, rest, InMax, literal + [c], info.(maxLen := Wrap(info.maxLen * 10 + DigitValue(c))))
  {
    var s := [c] + rest;
    assert s[0] == c && s[1..] == rest;
  }

  lemma {:induction false} ParseMoreMax(depth: nat, digits: string, rest: string, literal: string, info: FormattingInfo)
    requires AllDigits(digits) && info.maxLen <= MAX_SIZE
    ensures Parsed(depth, digits + rest, InMax, literal, info)
            == Parsed(depth, rest, InMax, literal + digits, info.(maxLen := Wrap(Accumulate(info.maxLen, digits))))
    decreases |digits|
  {
    if digits == "" {
      assert digits + rest == rest && literal + digits == literal;
      WrapTwice(info.maxLen);
    } else {
      HeadFirst(digits, literal, rest);
      var v := info.maxLen * 10 + DigitValue(digits[0]);
      OneMoreMax(depth, digits[0], digits[1..] + rest, literal, info);
      ParseMoreMax(depth, digits[1..], rest, literal + [digits[0]], info.(maxLen := Wrap(v)));
      WrapTwice(v);
      AccumulateWraps(v, Wrap(v), digits[1..]);
    }
  }

  // ----- What stands between the percent sign and the letter -----

  /** The widths as they are written: any digits, and leading zeros too. */
  datatype Widths = Widths(left: bool, min: string, dotted: bool, cutEnd: bool, max: string)

  predicate WidthsOk(w: Widths) {
    AllDigits(w.min) && AllDigits(w.max) && (w.dotted ==> w.max != "")
  }

  function AlignText(w: Widths): string {
    if w.left then "-" else ""
  }

  function MaxPart(w: Widths): string {
    if w.dotted then "." + ((if w.cutEnd then "-" else "") + w.max) else ""
  }

  function WidthText(w: Widths): string {
    AlignText(w) + (w.min + MaxPart(w))
  }

  /** What they mean: a missing minimum is -1, a missing maximum the largest size, and a maximum that is too large
      wraps around. */
  function InfoOf(w: Widths): FormattingInfo
    requires WidthsOk(w)
  {
    FormattingInfo(if w.min == "" then -1 else Number(w.min),
                   if w.dotted then Wrap(Number(w.max)) else MAX_SIZE, w.left, !(w.dotted && w.cutEnd))
  }

  function WidthsFor(info: FormattingInfo): Widths {
    Widths(info.leftAlign, MinText(info), MaxText(info) != "", !info.trimStart, Decimal(info.maxLen))
  }

  lemma WidthsOfInfo(info: FormattingInfo)
    requires InfoOk(info)
    ensures WidthsOk(WidthsFor(info)) && InfoOf(WidthsFor(info)) == info
  {
    if info.minLen >= 0 { NumberOfDecimal(info.minLen); }
    NumberOfDecimal(info.maxLen);
    WrapTwice(info.maxLen);
  }

  lemma WidthTextOfInfo(info: FormattingInfo)
    ensures WidthText(WidthsFor(info)) == (if info.leftAlign then "-" else "") + (MinText(info) + MaxText(info))
  {
    Assoc(".", if info.trimStart then "" else "-", Decimal(info.maxLen));
  }

  lemma FirstDigit(s: string)
    requires AllDigits(s) && s != ""
    ensures AllDigits(s[1..]) && Accumulate(DigitValue(s[0]), s[1..]) == Number(s)
  {
    AccumulateNumber(s);
  }

  lemma ParsePercent(depth: nat, rest: string, literal: string, info: FormattingInfo)
    requires rest != "" && rest[0] != '%'
    ensures Parsed(depth, "%" + rest, InLiteral, literal, info)
            == Flush(literal) + Parsed(depth, rest, InConverter, "%", DEFAULT)
  {
    var s := "%" + rest;
    assert s[0] == '%' && s[1..] == rest;
  }

  lemma ParseAlign(depth: nat, w: Widths, rest: string, literal: string)
    ensures Parsed(depth, AlignText(w) + rest, InConverter, literal, DEFAULT)
            == Parsed(depth, rest, InConverter, literal + AlignText(w), DEFAULT.(leftAlign := w.left))
  {
    if w.left {
      var s := "-" + rest;
      assert s[0] == '-' && s[1..] == rest;
    } else {
      assert "" + rest == rest && literal + "" == literal;
    }
  }

  function AfterMin(w: Widths): Mode {
    if w.min == "" then InConverter else InMin
  }

  lemma FirstOfMin(depth: nat, c: char, rest: string, literal: string, info: FormattingInfo)
    requires IsDigit(c)
    ensures Parsed(depth, [c] + rest, InConverter, literal, info)
            == Parsed(depth, rest, InMin, literal + [c], info.(minLen := DigitValue(c)))
  {
    var s := [c] + rest;
    assert s[0] == c && s[1..] == rest;
  }

  lemma ParseMin(depth: nat, w: Widths, rest: string, literal: string, before: FormattingInfo)
    requires WidthsOk(w) && before.minLen == -1
    ensures Parsed(depth, w.min + rest, InConverter, literal, before)
            == Parsed(depth, rest, AfterMin(w), literal + w.min, before.(minLen := InfoOf(w).minLen))
  {
    var d := w.min;
    if d == "" {
      assert d + rest == rest && literal + d == literal;
    } else {
      FirstDigit(d);
      HeadFirst(d, literal, rest);
      FirstOfMin(depth, d[0], d[1..] + rest, literal, before);
      ParseMoreMin(depth, d[1..], rest, literal + [d[0]], before.(minLen := DigitValue(d[0])));
    }
  }

  function AfterMax(w: Widths): Mode {
    if w.dotted then InMax else AfterMin(w)
  }

  lemma OneDot(depth: nat, mode: Mode, rest: string, literal: string, info: FormattingInfo)
    requires mode == InConverter || mode == InMin
    ensures Parsed(depth, "." + rest, mode, literal, info) == Parsed(depth, rest, AfterDot, literal + ".", info)
  {
    var s := "." + rest;
    assert s[0] == '.' && s[1..] == rest;
  }

  lemma ParseSign(depth: nat, cutEnd: bool, rest: string, literal: string, info: FormattingInfo)
    requires info.trimStart
    ensures var sign := if cutEnd then "-" else "";
            Parsed(depth, sign + rest, AfterDot, literal, info)
            == Parsed(depth, rest, AfterDot, literal + sign, info.(trimStart := !cutEnd))
  {
    if cutEnd {
      var s := "-" + rest;
      assert s[0] == '-' && s[1..] == rest;
    } else {
      assert "" + rest == rest && literal + "" == literal;
    }
  }

  lemma FirstOfMax(depth: nat, c: char, rest: string, literal: string, info: FormattingInfo)
    requires IsDigit(c)
    ensures Parsed(depth, [c] + rest, AfterDot, literal, info)
            == Parsed(depth, rest, InMax, literal + [c], info.(maxLen := DigitValue(c)))
  {
    var s := [c] + rest;
    assert s[0] == c && s[1..] == rest;
  }

  lemma ParseMaxDigits(depth: nat, d: string, rest: string, literal: string, before: FormattingInfo)
    requires AllDigits(d) && d != ""
    ensures Parsed(depth, d + rest, AfterDot, literal, before)
            == Parsed(depth, rest, InMax, literal + d, before.(maxLen := Wrap(Number(d))))
  {
    FirstDigit(d);
    HeadFirst(d, literal, rest);
    FirstOfMax(depth, d[0], d[1..] + rest, literal, before);
    ParseMoreMax(depth, d[1..], rest, literal + [d[0]], before.(maxLen := DigitValue(d[0])));
  }

  lemma ParseMax(depth: nat, w: Widths, rest: string, literal: string)
    requires WidthsOk(w)
    ensures Parsed(depth, MaxPart(w) + rest, AfterMin(w), literal, InfoOf(w).(maxLen := MAX_SIZE, trimStart := true))
            == Parsed(depth, rest, AfterMax(w), literal + MaxPart(w), InfoOf(w))
  {
    var before := InfoOf(w).(maxLen := MAX_SIZE, trimStart := true);
    if w.dotted {
      var sign := if w.cutEnd then "-" else "";
      MaxPieces(w, rest, literal);
      OneDot(depth, AfterMin(w), sign + (w.max + rest), literal, before);
      ParseSign(depth, w.cutEnd, w.max + rest, literal + ".", before);
      ParseMaxDigits(depth, w.max, rest, literal + "." + sign, before.(trimStart := !w.cutEnd));
    } else {
      assert "" + rest == rest && literal + "" == literal;
    }
  }

  lemma MaxPieces(w: Widths, rest: string, literal: string)
    requires w.dotted
    ensures var sign := if w.cutEnd then "-" else "";
            && MaxPart(w) + rest == "." + (sign + (w.max + rest))
            && literal + MaxPart(w) == literal + "." + sign + w.max
  {
  }

  lemma WidthPieces(w: Widths, rest: string)
    ensures WidthText(w) + rest == AlignText(w) + (w.min + (MaxPart(w) + rest))
    ensures "%" + WidthText(w) == "%" + AlignText(w) + w.min + MaxPart(w)
  {
    Assoc(w.min, MaxPart(w), rest);
    Assoc(AlignText(w), w.min + MaxPart(w), rest);
    Assoc("%", AlignText(w), w.min + MaxPart(w));
    Assoc("%" + AlignText(w), w.min, MaxPart(w));
  }

  /** A percent sign and the widths. */
  lemma ParseWidths(depth: nat, w: Widths, rest: string, literal: string, info: FormattingInfo)
    requires WidthsOk(w) && WidthText(w) + rest != "" && (WidthText(w) + rest)[0] != '%'
    ensures Parsed(depth, "%" + (WidthText(w) + rest), InLiteral, literal, info)
            == Flush(literal) + Parsed(depth, rest, AfterMax(w), "%" + WidthText(w), InfoOf(w))
  {
    var a, max := AlignText(w), MaxPart(w);
    ParsePercent(depth, WidthText(w) + rest, literal, info);
    WidthPieces(w, rest);
    ParseAlign(depth, w, w.min + (max + rest), "%");
    ParseMin(depth, w, max + rest, "%" + a, DEFAULT.(leftAlign := w.left));
    assert DEFAULT.(leftAlign := w.left).(minLen := InfoOf(w).minLen)
        == InfoOf(w).(maxLen := MAX_SIZE, trimStart := true);
    ParseMax(depth, w, rest, "%" + a + w.min);
  }

  lemma FirstOf(a: string, b: string)
    requires a != ""
    ensures a + b != "" && (a + b)[0] == a[0]
  {
  }

  lemma NoPercent(w: Widths, rest: string)
    requires WidthsOk(w) && rest != "" && rest[0] != '%'
    ensures WidthText(w) + rest != "" && (WidthText(w) + rest)[0] != '%'
  {
    WidthPieces(w, rest);
    var t1 := MaxPart(w) + rest;
    if w.dotted { FirstOf(MaxPart(w), rest); } else { assert t1 == rest; }
    var t2 := w.min + t1;
    if w.min != "" { FirstOf(w.min, t1); assert IsDigit(w.min[0]); } else { assert t2 == t1; }
    if w.left { FirstOf("-", t2); } else { assert AlignText(w) + t2 == t2; }
  }

  // ----- The letter -----

  predicate IsLetter(c: char) {
    !IsDigit(c) && c != '%' && c != '-' && c != '.'
  }

  function SpecText(w: Widths, c: char): string {
    "%" + (WidthText(w) + [c])
  }

  lemma OneLetter(depth: nat, c: char, mode: Mode, rest: string, literal: string, info: FormattingInfo)
    requires IsLetter(c) && (mode == InConverter || mode == InMin || mode == InMax)
    ensures Parsed(depth, [c] + rest, mode, literal, info) == Finalized(depth, c, rest, literal + [c], info)
  {
    var s := [c] + rest;
    assert s[0] == c && s[1..] == rest;
  }

  lemma ParseSpec(depth: nat, w: Widths, c: char, rest: string, literal: string, info: FormattingInfo)
    requires WidthsOk(w) && IsLetter(c)
    ensures Parsed(depth, SpecText(w, c) + rest, InLiteral, literal, info)
            == Flush(literal) + Finalized(depth, c, rest, SpecText(w, c), InfoOf(w))
  {
    NoPercent(w, [c] + rest);
    ParseWidths(depth, w, [c] + rest, literal, info);
    Assoc(WidthText(w), [c], rest);
    Assoc("%", WidthText(w) + [c], rest);
    OneLetter(depth, c, AfterMax(w), rest, "%" + WidthText(w), InfoOf(w));
    Assoc("%", WidthText(w), [c]);
  }

  lemma FlushFirst(flushed: seq<Converter>, conv: Converter, rest: seq<Converter>)
    ensures flushed + ([conv] + rest) == flushed + [conv] + rest
  {
  }

  lemma ExtractPrinted(option: string, rest: string)
    requires '}' !in option
    ensures ExtractOption("{" + option + "}" + rest) == (option, rest)
  {
    var t, n := "{" + option + "}" + rest, |option| + 1;
    assert t[..n] == "{" + option && t[n] == '}';
    FindIs(t, '}', n);
    assert t[1..n] == option && t[n + 1..] == rest;
  }

  lemma MakeLetter(depth: nat, conv: Converter)
    requires !conv.Literal? && Printable(depth, conv)
    ensures Make(depth, Letter(conv), conv.info, OptionText(conv)) == Some(conv) && IsLetter(Letter(conv))
  {
    if conv.Logger? { AtoiOfInteger(conv.precision); }
  }

  function Tail(conv: Converter): string
    requires !conv.Literal?
  {
    if TakesOption(Letter(conv)) then "{" + OptionText(conv) + "}" else ""
  }

  lemma FinalizePrinted(depth: nat, conv: Converter, literal: string, rest: string)
    requires !conv.Literal? && Printable(depth, conv)
    ensures Finalize(depth, Letter(conv), literal, conv.info, Tail(conv) + rest) == (conv, rest)
  {
    MakeLetter(depth, conv);
    if TakesOption(Letter(conv)) {
      if conv.Logger? { AtoiOfInteger(conv.precision); }
      ExtractPrinted(OptionText(conv), rest);
    } else {
      assert Tail(conv) + rest == rest;
    }
  }

  lemma PrintPieces(conv: Converter, rest: string)
    requires !conv.Literal? && InfoOk(conv.info)
    ensures Print(conv) + rest == SpecText(WidthsFor(conv.info), Letter(conv)) + (Tail(conv) + rest)
  {
    var i, w, c, tail := conv.info, WidthsFor(conv.info), Letter(conv), Tail(conv);
    var a, min, max := if i.leftAlign then "-" else "", MinText(i), MaxText(i);
    WidthTextOfInfo(i);
    Assoc(min, max, [c] + tail);
    Assoc(a, min + max, [c] + tail);
    Assoc(WidthText(w), [c], tail);
    Assoc("%", WidthText(w) + [c], tail);
    assert Print(conv) == SpecText(w, c) + tail;
    Assoc(SpecText(w, c), tail, rest);
  }

  /** One printed converter, followed by anything, parses back to itself. */
  lemma ParseField(depth: nat, conv: Converter, rest: string, literal: string, info: FormattingInfo)
    requires !conv.Literal? && Printable(depth, conv)
    ensures Parsed(depth, Print(conv) + rest, InLiteral, literal, info)
            == Flush(literal) + [conv] + Parsed(depth, rest, InLiteral, "", DEFAULT)
  {
    var w, c := WidthsFor(conv.info), Letter(conv);
    WidthsOfInfo(conv.info);
    MakeLetter(depth, conv);
    PrintPieces(conv, rest);
    ParseSpec(depth, w, c, Tail(conv) + rest, literal, info);
    FinalizePrinted(depth, conv, SpecText(w, c), rest);
    FlushFirst(Flush(literal), conv, Parse(depth, rest));
  }

  lemma {:induction false} ParsePrinted(depth: nat, l: seq<Converter>, literal: string, info: FormattingInfo)
    requires AllPrintable(depth, l)
    ensures Parsed(depth, PrintAll(l), InLiteral, literal, info) == MergeAfter(literal, l)
    decreases |l|
  {
    if l != [] {
      var rest := PrintAll(l[1..]);
      if l[0].Literal? {
        ParseEscaped(depth, l[0].text, rest, literal, info);
        ParsePrinted(depth, l[1..], literal + l[0].text, info);
      } else {
        ParseField(depth, l[0], rest, literal, info);
        ParsePrinted(depth, l[1..], "", DEFAULT);
      }
    }
  }

  /** Parsing what was printed gives the same list up to joined literals, hence the list itself exactly when
      no literal is empty or follows another. */
  lemma RoundTripIff(depth: nat, l: seq<Converter>)
    requires AllPrintable(depth, l)
    ensures Parse(depth, PrintAll(l)) == Merge(l)
    ensures Parse(depth, PrintAll(l)) == l <==> Normal(l)
  {
    ParsePrinted(depth, l, "", DEFAULT);
    MergeAfterNormal("", l);
    if Normal(l) { MergeOfNormal(l); }
  }

  // ----- Every pattern has a printed form with the same output -----

  lemma MakePrintable(depth: nat, c: char, info: FormattingInfo, option: string)
    requires InfoOk(info) && '}' !in option
    ensures match Make(depth, c, info, option) case Some(conv) => Printable(depth, conv) case None => true
  {
    assert '}' !in DEFAULT_DATE;
  }

  lemma FinalizePrintable(depth: nat, c: char, literal: string, info: FormattingInfo, rest: string)
    requires InfoOk(info)
    ensures Printable(depth, Finalize(depth, c, literal, info, rest).0)
  {
    var option := if TakesOption(c) then ExtractOption(rest).0 else "";
    assert '}' !in option by {
      assert forall x | x in option && option != "" :: x in rest[..Find(rest, '}')];
    }
    MakePrintable(depth, c, info, option);
  }

  /** Whatever the pattern, the parser makes only converters that can be printed. */
  lemma {:induction false} ParsedPrintable(depth: nat, rest: string, mode: Mode, literal: string, info: FormattingInfo)
    requires InfoOk(info) && (mode == InMin ==> info.minLen >= 0)
    ensures AllPrintable(depth, Parsed(depth, rest, mode, literal, info))
    decreases |rest|, 0
  {
    if rest != "" {
      var c, rest', more := rest[0], rest[1..], literal + [rest[0]];
      match mode
      case InLiteral =>
        if rest' == "" || c != '%' {
          ParsedPrintable(depth, rest', InLiteral, more, info);
        } else if rest'[0] == '%' {
          ParsedPrintable(depth, rest'[1..], InLiteral, more, info);
        } else {
          ParsedPrintable(depth, rest', InConverter, "%", DEFAULT);
        }
      case InConverter =>
        if c == '-' {
          ParsedPrintable(depth, rest', InConverter, more, info.(leftAlign := true));
        } else if c == '.' {
          ParsedPrintable(depth, rest', AfterDot, more, info);
        } else if IsDigit(c) {
          ParsedPrintable(depth, rest', InMin, more, info.(minLen := DigitValue(c)));
        } else {
          FinalizedPrintable(depth, c, rest', more, info);
        }
      case InMin =>
        if IsDigit(c) {
          ParsedPrintable(depth, rest', InMin, more, info.(minLen := info.minLen * 10 + DigitValue(c)));
        } else if c == '.' {
          ParsedPrintable(depth, rest', AfterDot, more, info);
        } else {
          FinalizedPrintable(depth, c, rest', more, info);
        }
      case AfterDot =>
        if c == '-' {
          ParsedPrintable(depth, rest', AfterDot, more, info.(trimStart := false));
        } else if IsDigit(c) {
          ParsedPrintable(depth, rest', InMax, more, info.(maxLen := DigitValue(c)));
        } else {
          ParsedPrintable(depth, rest', InLiteral, more, info);
        }
      case InMax =>
        if IsDigit(c) {
          ParsedPrintable(depth, rest', InMax, more,
                          info.(maxLen := (info.maxLen * 10 + DigitValue(c)) % (MAX_SIZE + 1)));
        } else {
          FinalizedPrintable(depth, c, rest', more, info);
        }
    }
  }

  lemma {:induction false} FinalizedPrintable(depth: nat, c: char, rest: string, literal: string, info: FormattingInfo)
    requires InfoOk(info)
    ensures AllPrintable(depth, Finalized(depth, c, rest, literal, info))
    decreases |rest|, 1
  {
    FinalizePrintable(depth, c, literal, info, rest);
    ParsedPrintable(depth, Finalize(depth, c, literal, info, rest).1, InLiteral, "", DEFAULT);
  }

  /** The output for one event; field gives the formatted text of every converter that is not a literal. */
  function Render(l: seq<Converter>, field: Converter -> string): string {
    if l == [] then ""
    else (if l[0].Literal? then l[0].text else field(l[0])) + Render(l[1..], field)
  }

  lemma {:induction false} MergeRenders(literal: string, l: seq<Converter>, field: Converter -> string)
    ensures Render(MergeAfter(literal, l), field) == literal + Render(l, field)
    decreases |l|
  {
    if l != [] {
      if l[0].Literal? {
        MergeRenders(literal + l[0].text, l[1..], field);
        Assoc(literal, l[0].text, Render(l[1..], field));
      } else {
        MergeRenders("", l[1..], field);
        var tail := MergeAfter("", l[1..]);
        FlushRenders(literal, [l[0]] + tail, field);
        assert Flush(literal) + [l[0]] + tail == Flush(literal) + ([l[0]] + tail);
        assert ([l[0]] + tail)[1..] == tail;
        assert "" + Render(l[1..], field) == Render(l[1..], field);
        assert Render([l[0]] + tail, field) == field(l[0]) + Render(tail, field);
      }
    } else {
      FlushRenders(literal, [], field);
      assert Flush(literal) + [] == Flush(literal);
    }
  }

  lemma FlushRenders(literal: string, l: seq<Converter>, field: Converter -> string)
    ensures Render(Flush(literal) + l, field) == literal + Render(l, field)
  {
    if literal == "" {
      assert Flush(literal) + l == l && literal + Render(l, field) == Render(l, field);
    } else {
      assert (Flush(literal) + l)[1..] == l;
    }
  }

  /** Printing what was parsed gives a pattern with the same output for every event, whatever the pattern. */
  lemma PrintedFormSameOutput(depth: nat, pattern: string, field: Converter -> string)
    ensures Render(Parse(depth, PrintAll(Parse(depth, pattern))), field) == Render(Parse(depth, pattern), field)
  {
    ParsedPrintable(depth, pattern, InLiteral, "", DEFAULT);
    var l := Parse(depth, pattern);
    RoundTripIff(depth, l);
    MergeRenders("", l, field);
  }
}
