/**
 The pattern layout's parser: a conversion pattern becomes a list of converters.  A
 printer is defined beside it, and the parser is proved to undo it.
 */
module PatternParser {
  import opened Decimals
  import opened Wrappers

  const MAX_SIZE := 0xFFFF_FFFF_FFFF_FFFF

  /** minLen is -1 when no minimum was given; maxLen is a 64 bit size. */
  datatype FormattingInfo = FormattingInfo(minLen: int, maxLen: nat, leftAlign: bool, trimStart: bool)

  const DEFAULT := FormattingInfo(-1, MAX_SIZE, false, true)

  datatype Field =
    Thread | Thread2 | Process | LogLevel | Message | Newline | Basename | File | Line | Location | Function

  datatype Converter =
    | Literal(text: string)
    | Basic(info: FormattingInfo, field: Field)
    | Logger(info: FormattingInfo, precision: int)
    | Date(info: FormattingInfo, format: string, gmt: bool)
    | Env(info: FormattingInfo, key: string)
    | Hostname(info: FormattingInfo, fqdn: bool)
    | Relative(info: FormattingInfo)
    | Ndc(info: FormattingInfo, depth: nat)
    | Mdc(info: FormattingInfo, key: string)

  datatype Mode = InLiteral | InConverter | InMin | AfterDot | InMax

  // ----- std::atoi -----

  /** Reading digits after the value v. */
  function Accumulate(v: nat, s: string): nat
    requires AllDigits(s)
    decreases |s|
  {
    if s == [] then v else Accumulate(v * 10 + DigitValue(s[0]), s[1..])
  }

  function LeadingDigits(s: string): (d: string)
    ensures AllDigits(d)
  {
    if s != [] && IsDigit(s[0]) then [s[0]] + LeadingDigits(s[1..]) else []
  }

  predicate IsSpace(c: char) {
    c == ' ' || 9 <= c as int <= 13
  }

  function Atoi(s: string): int {
    if s == [] then 0
    else if IsSpace(s[0]) then Atoi(s[1..])
    else if s[0] == '-' then 0 - Accumulate(0, LeadingDigits(s[1..])) as int
    else if s[0] == '+' then Accumulate(0, LeadingDigits(s[1..]))
    else Accumulate(0, LeadingDigits(s))
  }

  // ----- The parser -----

  const DEFAULT_DATE := "%Y-%m-%d %H:%M:%S"

  /** Position of the first c in s, |s| if there is none. */
  function Find(s: string, c: char): (i: nat)
    ensures i <= |s| && c !in s[..i] && (i < |s| ==> s[i] == c)
  {
    if s == [] || s[0] == c then 0
    else
      var i := Find(s[1..], c);
      assert s[..i + 1] == [s[0]] + s[1..][..i];
      i + 1
  }

  /** The option in braces at the start of s, and what follows it.  Without a closing brace all is skipped. */
  function ExtractOption(s: string): (r: (string, string))
    ensures |r.1| <= |s|
  {
    if s == [] || s[0] != '{' then ("", s)
    else if Find(s, '}') == |s| then ("", "")
    else (s[1..Find(s, '}')], s[Find(s, '}') + 1..])
  }

  predicate TakesOption(c: char) {
    c in "cdDEX"
  }

  /** The converter for a conversion character, if it has one. */
  function Make(depth: nat, c: char, info: FormattingInfo, option: string): Option<Converter> {
    match c
    case 'b' => Some(Basic(info, Basename))
    case 'c' => Some(Logger(info, if option == "" then 0 else Atoi(option)))
    case 'd' => Some(Date(info, if option == "" then DEFAULT_DATE else option, true))
    case 'D' => Some(Date(info, if option == "" then DEFAULT_DATE else option, false))
    case 'E' => Some(Env(info, option))
    case 'F' => Some(Basic(info, File))
    case 'h' => Some(Hostname(info, false))
    case 'H' => Some(Hostname(info, true))
    case 'i' => Some(Basic(info, Process))
    case 'l' => Some(Basic(info, Location))
    case 'L' => Some(Basic(info, Line))
    case 'm' => Some(Basic(info, Message))
    case 'M' => Some(Basic(info, Function))
    case 'n' => Some(Basic(info, Newline))
    case 'p' => Some(Basic(info, LogLevel))
    case 'r' => Some(Relative(info))
    case 't' => Some(Basic(info, Thread))
    case 'T' => Some(Basic(info, Thread2))
    case 'x' => Some(Ndc(info, depth))
    case 'X' => Some(Mdc(info, option))
    case _ => None
  }

  /** finalizeConverter: the converter, and the rest of the pattern. */
  function Finalize(depth: nat, c: char, literal: string, info: FormattingInfo, rest: string): (r: (Converter, string))
    ensures |r.1| <= |rest|
  {
    var (option, rest') := if TakesOption(c) then ExtractOption(rest) else ("", rest);
    match Make(depth, c, info, option)
    case Some(conv) => (conv, rest')
    case None => (Literal(literal), rest')
  }

  function Flush(literal: string): seq<Converter> {
    if literal == "" then [] else [Literal(literal)]
  }

  /** The converters that the rest of the pattern adds. */
  function Parsed(depth: nat, rest: string, mode: Mode, literal: string, info: FormattingInfo): seq<Converter>
    decreases |rest|, 0
  {
    if rest == "" then Flush(literal)
    else
      var c, rest', more := rest[0], rest[1..], literal + [rest[0]];
      match mode
      case InLiteral =>
        if rest' == "" || c != '%' then Parsed(depth, rest', InLiteral, more, info)
        else if rest'[0] == '%' then Parsed(depth, rest'[1..], InLiteral, more, info)
        else Flush(literal) + Parsed(depth, rest', InConverter, "%", DEFAULT)
      case InConverter =>
        if c == '-' then Parsed(depth, rest', InConverter, more, info.(leftAlign := true))
        else if c == '.' then Parsed(depth, rest', AfterDot, more, info)
        else if IsDigit(c) then Parsed(depth, rest', InMin, more, info.(minLen := DigitValue(c)))
        else Finalized(depth, c, rest', more, info)
      case InMin =>
        if IsDigit(c) then Parsed(depth, rest', InMin, more, info.(minLen := info.minLen * 10 + DigitValue(c)))
        else if c == '.' then Parsed(depth, rest', AfterDot, more, info)
        else Finalized(depth, c, rest', more, info)
      case AfterDot =>
        if c == '-' then Parsed(depth, rest', AfterDot, more, info.(trimStart := false))
        else if IsDigit(c) then Parsed(depth, rest', InMax, more, info.(maxLen := DigitValue(c)))
        else Parsed(depth, rest', InLiteral, more, info)
      case InMax =>
        if IsDigit(c) then
          Parsed(depth, rest', InMax, more, info.(maxLen := (info.maxLen * 10 + DigitValue(c)) % (MAX_SIZE + 1)))
        else Finalized(depth, c, rest', more, info)
  }

  function Finalized(depth: nat, c: char, rest: string, literal: string, info: FormattingInfo): seq<Converter>
    decreases |rest|, 1
  {
    var (conv, rest') := Finalize(depth, c, literal, info, rest);
    [conv] + Parsed(depth, rest', InLiteral, "", DEFAULT)
  }

  function Parse(depth: nat, pattern: string): seq<Converter> {
    Parsed(depth, pattern, InLiteral, "", DEFAULT)
  }

  /** The parser as it walks over the pattern. */
  class Parser {
    const pattern: string
    const ndcMaxDepth: nat
    var state: Mode
    var pos: nat
    var currentLiteral: string
    var formattingInfo: FormattingInfo
    var list: seq<Converter>

    constructor (pattern: string, ndcMaxDepth: nat)
      ensures this.pattern == pattern && this.ndcMaxDepth == ndcMaxDepth
      ensures state == InLiteral && pos == 0 && currentLiteral == "" && formattingInfo == DEFAULT && list == []
    {
      this.pattern, this.ndcMaxDepth := pattern, ndcMaxDepth;
      state, pos, currentLiteral, formattingInfo, list := InLiteral, 0, "", DEFAULT, [];
    }

    /** All that is yet to come, after what is already in the list. */
    ghost function Outcome(): seq<Converter>
      requires pos <= |pattern|
      reads this
    {
      list + Parsed(ndcMaxDepth, pattern[pos..], state, currentLiteral, formattingInfo)
    }

    /** pattern.find_first_of for a closing brace. */
    method FindClosing() returns (end: nat)
      requires pos <= |pattern|
      ensures pos <= end <= |pattern| && (end < |pattern| ==> pattern[end] == '}')
      ensures forall k :: pos <= k < end ==> pattern[k] != '}'
    {
      end := pos;
      while end < |pattern| && pattern[end] != '}'
        invariant pos <= end <= |pattern|
        invariant forall k :: pos <= k < end ==> pattern[k] != '}'
      {
        end := end + 1;
      }
    }

    method ExtractOptionAt() returns (r: string)
      requires pos <= |pattern|
      modifies this`pos
      ensures old(pos) <= pos <= |pattern|
      ensures (r, pattern[pos..]) == ExtractOption(pattern[old(pos)..])
    {
      r := "";
      if pos < |pattern| && pattern[pos] == '{' {
        var end := FindClosing();
        OptionAt(pattern, pos, end);
        if end < |pattern| {
          r := pattern[pos + 1..end];
          pos := end + 1;
        } else {
          pos := |pattern|;
        }
      }
    }

    method FinalizeConverter(c: char)
      requires pos <= |pattern|
      modifies this
      ensures old(pos) <= pos <= |pattern| && state == InLiteral
      ensures Outcome() == old(list) + Finalized(ndcMaxDepth, c, pattern[old(pos)..], old(currentLiteral),
                                                 old(formattingInfo))
    {
      var option := "";
      if TakesOption(c) {
        option := ExtractOptionAt();
      }
      var pc := match Make(ndcMaxDepth, c, formattingInfo, option)
        case Some(conv) => conv
        case None => Literal(currentLiteral);
      list := list + [pc];
      currentLiteral := "";
      state := InLiteral;
      formattingInfo := DEFAULT;
    }

    /** One turn of the loop. */
    method Step()
      requires pos < |pattern|
      modifies this
      ensures old(pos) < pos <= |pattern| && Outcome() == old(Outcome())
    {
      ghost var rest := pattern[pos..];
      var c := pattern[pos];
      pos := pos + 1;
      assert pattern[pos..] == rest[1..];
      match state
      case InLiteral =>
        if pos == |pattern| {
          currentLiteral := currentLiteral + [c];
        } else if c == '%' {
          if pattern[pos] == '%' {
            currentLiteral := currentLiteral + [c];
            pos := pos + 1;
            assert pattern[pos..] == rest[1..][1..];
          } else {
            if currentLiteral != "" {
              list := list + [Literal(currentLiteral)];
            }
            currentLiteral := [c];
            state := InConverter;
            formattingInfo := DEFAULT;
          }
        } else {
          currentLiteral := currentLiteral + [c];
        }
      case InConverter =>
        currentLiteral := currentLiteral + [c];
        if c == '-' {
          formattingInfo := formattingInfo.(leftAlign := true);
        } else if c == '.' {
          state := AfterDot;
        } else if '0' <= c <= '9' {
          formattingInfo := formattingInfo.(minLen := DigitValue(c));
          state := InMin;
        } else {
          FinalizeConverter(c);
        }
      case InMin =>
        currentLiteral := currentLiteral + [c];
        if '0' <= c <= '9' {
          formattingInfo := formattingInfo.(minLen := formattingInfo.minLen * 10 + DigitValue(c));
        } else if c == '.' {
          state := AfterDot;
        } else {
          FinalizeConverter(c);
        }
      case AfterDot =>
        currentLiteral := currentLiteral + [c];
        if c == '-' {
          formattingInfo := formattingInfo.(trimStart := false);
        } else if '0' <= c <= '9' {
          formattingInfo := formattingInfo.(maxLen := DigitValue(c));
          state := InMax;
        } else {
          state := InLiteral;
        }
      case InMax =>
        currentLiteral := currentLiteral + [c];
        if '0' <= c <= '9' {
          formattingInfo := formattingInfo.(maxLen := (formattingInfo.maxLen * 10 + DigitValue(c)) % (MAX_SIZE + 1));
        } else {
          FinalizeConverter(c);
          state := InLiteral;
        }
    }

    /** Every character is consumed. */
    method ParseAll() returns (converters: seq<Converter>)
      requires state == InLiteral && currentLiteral == "" && formattingInfo == DEFAULT && list == []
      modifies this
      ensures pos == |pattern| && converters == Parse(ndcMaxDepth, pattern)
    {
      pos := 0;
      assert pattern[0..] == pattern;
      while pos < |pattern|
        invariant pos <= |pattern| && Outcome() == Parse(ndcMaxDepth, pattern)
      {
        Step();
      }
      if currentLiteral != "" {
        list := list + [Literal(currentLiteral)];
      }
      converters := list;
    }
  }

  lemma {:induction false} FindIs(s: string, c: char, i: nat)
    requires i <= |s| && c !in s[..i] && (i < |s| ==> s[i] == c)
    ensures Find(s, c) == i
  {
    assert forall k | 0 <= k < i :: s[k] in s[..i];
    assert forall k | 0 <= k < Find(s, c) :: s[k] in s[..Find(s, c)];
  }

  lemma OptionAt(pattern: string, pos: nat, end: nat)
    requires pos < |pattern| && pattern[pos] == '{' && pos <= end <= |pattern|
    requires (end < |pattern| ==> pattern[end] == '}') && forall k :: pos <= k < end ==> pattern[k] != '}'
    ensures ExtractOption(pattern[pos..])
            == if end < |pattern| then (pattern[pos + 1..end], pattern[end + 1..]) else ("", pattern[|pattern|..])
  {
    var rest, n := pattern[pos..], end - pos;
    assert '}' !in rest[..n];
    FindIs(rest, '}', n);
    if end < |pattern| {
      assert rest[1..n] == pattern[pos + 1..end] && rest[n + 1..] == pattern[end + 1..];
    } else {
      assert pattern[|pattern|..] == "";
    }
  }
}
