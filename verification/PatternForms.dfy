/**
 The conversion patterns that no printer writes: converters without their
 option, options of any text, letters that mean nothing, and specifications
 that are malformed or break off.
 */
module PatternForms {
  import opened Decimals
  import opened Wrappers
  import opened PatternParser
  import opened PatternPrinter

  // ----- Converters without their option -----

  /** The converter of each letter that takes an option, when it is given none. */
  function Bare(info: FormattingInfo, c: char): Converter
    requires TakesOption(c)
  {
    match c
    case 'c' => Logger(info, 0)
    case 'd' => Date(info, "%Y-%m-%d %H:%M:%S", true)
    case 'D' => Date(info, "%Y-%m-%d %H:%M:%S", false)
    case 'E' => Env(info, "")
    case _ => Mdc(info, "")
  }

  lemma MakeBare(depth: nat, c: char, info: FormattingInfo)
    requires TakesOption(c)
    ensures Make(depth, c, info, "") == Some(Bare(info, c)) && IsLetter(c)
  {
  }

  /** Any widths and then the bare letter, or the letter and empty braces, after any text. */
  lemma BareForms(depth: nat, text: string, w: Widths, c: char, rest: string)
    requires WidthsOk(w) && TakesOption(c)
    ensures (rest == "" || rest[0] != '{') ==>
              Parse(depth, Escape(text) + (SpecText(w, c) + rest))
              == Flush(text) + [Bare(InfoOf(w), c)] + Parse(depth, rest)
    ensures Parse(depth, Escape(text) + (SpecText(w, c) + ("{}" + rest)))
            == Flush(text) + [Bare(InfoOf(w), c)] + Parse(depth, rest)
  {
    ExtractPrinted("", rest);
    assert "{" + "" + "}" + rest == "{}" + rest;
    if rest == "" || rest[0] != '{' { BareForm(depth, text, w, c, rest, rest); }
    BareForm(depth, text, w, c, "{}" + rest, rest);
  }

  lemma BareForm(depth: nat, text: string, w: Widths, c: char, tail: string, rest: string)
    requires WidthsOk(w) && TakesOption(c) && ExtractOption(tail) == ("", rest)
    ensures Parse(depth, Escape(text) + (SpecText(w, c) + tail))
            == Flush(text) + [Bare(InfoOf(w), c)] + Parse(depth, rest)
  {
    MakeBare(depth, c, InfoOf(w));
    ParseEscaped(depth, text, SpecText(w, c) + tail, "", DEFAULT);
    assert "" + text == text;
    ParseSpec(depth, w, c, tail, text, DEFAULT);
    FlushFirst(Flush(text), Bare(InfoOf(w), c), Parse(depth, rest));
  }

  lemma NothingFlushed(l: seq<Converter>)
    ensures Flush("") + l == l
  {
  }

  /** An option that is not closed swallows the rest of the pattern and counts as none. */
  lemma UnclosedOption(depth: nat, w: Widths, c: char, rest: string)
    requires WidthsOk(w) && TakesOption(c) && '}' !in rest
    ensures Parse(depth, SpecText(w, c) + ("{" + rest)) == [Bare(InfoOf(w), c)]
  {
    var t := "{" + rest;
    MakeBare(depth, c, InfoOf(w));
    ParseSpec(depth, w, c, t, "", DEFAULT);
    assert t[..|t|] == t;
    FindIs(t, '}', |t|);
    NothingFlushed(Finalized(depth, c, t, SpecText(w, c), InfoOf(w)));
  }

  // ----- Options of any text -----

  /** Blanks, tabulators, line feeds, vertical tabulators, form feeds and carriage returns. */
  predicate AllSpaces(s: string) {
    forall i :: 0 <= i < |s| ==> s[i] == ' ' || '\t' <= s[i] <= '\r'
  }

  predicate StartsWithDigit(s: string) {
    s != "" && IsDigit(s[0])
  }

  /** Where no number begins. */
  predicate NoNumber(s: string) {
    s == "" || !(IsSpace(s[0]) || IsDigit(s[0]) || s[0] == '-' || s[0] == '+')
  }

  lemma {:induction false} LeadingOf(digits: string, rest: string)
    requires AllDigits(digits) && !StartsWithDigit(rest)
    ensures LeadingDigits(digits + rest) == digits
    decreases |digits|
  {
    if digits == "" {
      assert digits + rest == rest;
    } else {
      assert (digits + rest)[1..] == digits[1..] + rest;
      LeadingOf(digits[1..], rest);
    }
  }

  lemma {:induction false} SkipSpaces(spaces: string, rest: string)
    requires AllSpaces(spaces)
    ensures Atoi(spaces + rest) == Atoi(rest)
    decreases |spaces|
  {
    if spaces == "" {
      assert spaces + rest == rest;
    } else {
      assert (spaces + rest)[1..] == spaces[1..] + rest;
      SkipSpaces(spaces[1..], rest);
    }
  }

  /** White space is skipped, one sign is heeded, and the number ends at the first character that is no digit. */
  lemma AtoiReads(spaces: string, digits: string, rest: string)
    requires AllSpaces(spaces) && AllDigits(digits) && !StartsWithDigit(rest)
    ensures digits != "" ==> Atoi(spaces + (digits + rest)) == Number(digits)
    ensures Atoi(spaces + ("-" + (digits + rest))) == 0 - Number(digits) as int
    ensures Atoi(spaces + ("+" + (digits + rest))) == Number(digits)
    ensures NoNumber(rest) ==> Atoi(spaces + rest) == 0
  {
    var t := digits + rest;
    LeadingOf(digits, rest);
    AccumulateNumber(digits);
    SkipSpaces(spaces, t);
    SkipSpaces(spaces, "-" + t);
    SkipSpaces(spaces, "+" + t);
    SkipSpaces(spaces, rest);
    assert ("-" + t)[1..] == t && ("+" + t)[1..] == t;
    if digits != "" { assert t[0] == digits[0] && IsDigit(t[0]); }
  }

  /** An option in braces, whatever its text: the date format or the key as it is, the precision as std::atoi
      reads it. */
  lemma AnyOption(depth: nat, w: Widths, option: string, rest: string)
    requires WidthsOk(w) && '}' !in option && option != ""
    ensures var tail, after := "{" + option + "}" + rest, Parse(depth, rest);
            && Parse(depth, SpecText(w, 'c') + tail) == [Logger(InfoOf(w), Atoi(option))] + after
            && Parse(depth, SpecText(w, 'd') + tail) == [Date(InfoOf(w), option, true)] + after
            && Parse(depth, SpecText(w, 'D') + tail) == [Date(InfoOf(w), option, false)] + after
            && Parse(depth, SpecText(w, 'E') + tail) == [Env(InfoOf(w), option)] + after
            && Parse(depth, SpecText(w, 'X') + tail) == [Mdc(InfoOf(w), option)] + after
  {
    OneOption(depth, w, 'c', option, rest, Logger(InfoOf(w), Atoi(option)));
    OneOption(depth, w, 'd', option, rest, Date(InfoOf(w), option, true));
    OneOption(depth, w, 'D', option, rest, Date(InfoOf(w), option, false));
    OneOption(depth, w, 'E', option, rest, Env(InfoOf(w), option));
    OneOption(depth, w, 'X', option, rest, Mdc(InfoOf(w), option));
  }

  lemma OneOption(depth: nat, w: Widths, c: char, option: string, rest: string, conv: Converter)
    requires WidthsOk(w) && '}' !in option && TakesOption(c) && Make(depth, c, InfoOf(w), option) == Some(conv)
    ensures Parse(depth, SpecText(w, c) + ("{" + option + "}" + rest)) == [conv] + Parse(depth, rest)
  {
    var tail := "{" + option + "}" + rest;
    MakeBare(depth, c, InfoOf(w));
    ParseSpec(depth, w, c, tail, "", DEFAULT);
    ExtractPrinted(option, rest);
    NothingFlushed(Finalized(depth, c, tail, SpecText(w, c), InfoOf(w)));
  }

  // ----- What is no specification -----

  predicate MeansNothing(c: char) {
    IsLetter(c) && c !in "bcdDEFhHilLmMnprtTxX"
  }

  /** A specification whose letter means nothing becomes a literal of its own. */
  lemma UnknownLetter(depth: nat, w: Widths, c: char, rest: string)
    requires WidthsOk(w) && MeansNothing(c)
    ensures Parse(depth, SpecText(w, c) + rest) == [Literal(SpecText(w, c))] + Parse(depth, rest)
  {
    ParseSpec(depth, w, c, rest, "", DEFAULT);
    NothingFlushed(Finalized(depth, c, rest, SpecText(w, c), InfoOf(w)));
  }

  /** One that breaks off becomes a literal, and so does a percent sign at the end. */
  lemma BrokenOff(depth: nat, w: Widths)
    requires WidthsOk(w)
    ensures Parse(depth, "%" + WidthText(w)) == [Literal("%" + WidthText(w))]
  {
    var t := WidthText(w);
    if t == "" {
      assert "%" + t == "%" && "%"[1..] == "";
      assert "" + ['%'] == "%";
      assert Parsed(depth, "%", InLiteral, "", DEFAULT) == Parsed(depth, "", InLiteral, "%", DEFAULT);
    } else {
      assert t + "" == t;
      FirstOfWidths(w);
      ParseWidths(depth, w, "", "", DEFAULT);
      NothingFlushed(Parsed(depth, "", AfterMax(w), "%" + t, InfoOf(w)));
    }
  }

  lemma FirstOfWidths(w: Widths)
    requires WidthsOk(w) && WidthText(w) != ""
    ensures WidthText(w)[0] != '%'
  {
    NoPercent(w, "m");
    FirstOf(WidthText(w), "m");
  }

  lemma {:induction false} LiteralInfo(depth: nat, rest: string, literal: string, a: FormattingInfo, b: FormattingInfo)
    ensures Parsed(depth, rest, InLiteral, literal, a) == Parsed(depth, rest, InLiteral, literal, b)
    decreases |rest|
  {
    if rest != "" {
      var c, rest', more := rest[0], rest[1..], literal + [rest[0]];
      if rest' == "" || c != '%' {
        LiteralInfo(depth, rest', more, a, b);
      } else if rest'[0] == '%' {
        LiteralInfo(depth, rest'[1..], more, a, b);
      }
    }
  }

  /** A point without digits after it: the text up to there is read as if its percent sign had been doubled, and the
      rest as if nothing had been begun. */
  lemma PointWithoutDigits(depth: nat, w: Widths, c: char, rest: string)
    requires WidthsOk(w) && !w.dotted && !IsDigit(c) && c != '-'
    ensures var text := "%" + (WidthText(w) + ("." + [c]));
            Parse(depth, text + rest) == Parse(depth, Escape(text) + rest)
  {
    var t, tail := WidthText(w), "." + ([c] + rest);
    var text := "%" + (t + ("." + [c]));
    NoPercent(w, tail);
    ParseWidths(depth, w, tail, "", DEFAULT);
    NothingFlushed(Parsed(depth, tail, AfterMax(w), "%" + t, InfoOf(w)));
    OneDot(depth, AfterMax(w), [c] + rest, "%" + t, InfoOf(w));
    OneAfterDot(depth, c, rest, "%" + t + ".", InfoOf(w));
    LiteralInfo(depth, rest, text, InfoOf(w), DEFAULT);
    ParseEscaped(depth, text, rest, "", DEFAULT);
    Assembled(t, c, rest);
  }

  lemma Assembled(t: string, c: char, rest: string)
    ensures var text := "%" + (t + ("." + [c]));
            text + rest == "%" + (t + ("." + ([c] + rest))) && "%" + t + "." + [c] == text && "" + text == text
  {
  }

  lemma OneAfterDot(depth: nat, c: char, rest: string, literal: string, info: FormattingInfo)
    requires !IsDigit(c) && c != '-'
    ensures Parsed(depth, [c] + rest, AfterDot, literal, info) == Parsed(depth, rest, InLiteral, literal + [c], info)
  {
    var s := [c] + rest;
    assert s[0] == c && s[1..] == rest;
  }
}
