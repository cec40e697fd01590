/** What a date format means, with every conversion but %Z left to the C library. */
module CalendarFormat {

  /** Flags that matter to %Z: the padding character, whether to pad at all, upper case. */
  datatype Style = Style(pad: char, noPad: bool, upper: bool)

  datatype Token = Plain(c: char) | Directive(text: string) | Zone(style: Style, width: nat)

  predicate IsFlag(c: char) {
    c == '_' || c == '-' || c == '0' || c == '^' || c == '#'
  }

  predicate IsDigit(c: char) {
    '0' <= c <= '9'
  }

  function FlagsEnd(s: string, i: nat): (j: nat)
    requires i <= |s|
    ensures i <= j <= |s| && (j < |s| ==> !IsFlag(s[j]))
    decreases |s| - i
  {
    if i < |s| && IsFlag(s[i]) then FlagsEnd(s, i + 1) else i
  }

  function DigitsEnd(s: string, i: nat): (j: nat)
    requires i <= |s|
    ensures i <= j <= |s| && (j < |s| ==> !IsDigit(s[j]))
    ensures forall k {:trigger IsDigit(s[k])} :: i <= k < j ==> IsDigit(s[k])
    decreases |s| - i
  {
    if i < |s| && IsDigit(s[i]) then DigitsEnd(s, i + 1) else i
  }

  /** Where the conversion character of the directive at the start of s is, or the end of s. */
  function Conversion(s: string): (j: nat)
    requires |s| > 0
    ensures 1 <= j <= |s|
  {
    DigitsEnd(s, FlagsEnd(s, 1))
  }

  function After(style: Style, flag: char): Style {
    Style(if flag == '0' then '0' else if flag == '_' then ' ' else style.pad,
          if flag == '-' then true else if flag == '_' || flag == '0' then false else style.noPad,
          style.upper || flag == '^' || flag == '#')
  }

  function StyleOf(flags: string): Style {
    if flags == [] then Style(' ', false, false) else After(StyleOf(flags[..|flags| - 1]), flags[|flags| - 1])
  }

  function Value(digits: string): nat
    requires forall k {:trigger IsDigit(digits[k])} :: 0 <= k < |digits| ==> IsDigit(digits[k])
  {
    if digits == [] then 0
    else
      assert IsDigit(digits[|digits| - 1]);
      10 * Value(digits[..|digits| - 1]) + (digits[|digits| - 1] as int - '0' as int)
  }

  function TokenLength(s: string): (n: nat)
    requires |s| > 0
    ensures 0 < n <= |s|
  {
    if s[0] != '%' then 1
    else
      var j := Conversion(s);
      if j < |s| then j + 1 else j
  }

  function FirstToken(s: string): Token
    requires |s| > 0
  {
    if s[0] != '%' then Plain(s[0])
    else
      var i, j := FlagsEnd(s, 1), Conversion(s);
      if j < |s| && s[j] == 'Z' then Zone(StyleOf(s[1..i]), Value(s[i..j]))
      else Directive(s[..TokenLength(s)])
  }

  /** A format, token by token. */
  function Scan(s: string): seq<Token> {
    if |s| == 0 then [] else [FirstToken(s)] + Scan(s[TokenLength(s)..])
  }

  // ----- Meaning -----

  function Upper(c: char): char {
    if 'a' <= c <= 'z' then (c as int - 'a' as int + 'A' as int) as char else c
  }

  function Repeat(c: char, n: nat): (s: string)
    ensures |s| == n
  {
    if n == 0 then [] else Repeat(c, n - 1) + [c]
  }

  function CasedChar(c: char, upper: bool): char {
    if upper then Upper(c) else c
  }

  /** The first k characters of a name in the wanted case. */
  function Cased(name: string, upper: bool, k: nat): (s: string)
    requires k <= |name|
    ensures |s| == k
  {
    if k == 0 then [] else Cased(name, upper, k - 1) + [CasedChar(name[k - 1], upper)]
  }

  function Padding(name: string, style: Style, width: nat): nat {
    if !style.noPad && width > |name| then width - |name| else 0
  }

  /** The text of a %Z: the zone's name in the wanted case, padded on the left. */
  function ZoneText(name: string, style: Style, width: nat): (s: string)
    ensures |s| == Padding(name, style, width) + |name|
  {
    Repeat(style.pad, Padding(name, style, width)) + Cased(name, style.upper, |name|)
  }

  function TokenText(convert: string -> string, name: string, token: Token): string {
    match token
    case Plain(c) => [c]
    case Directive(text) => convert(text)
    case Zone(style, width) => ZoneText(name, style, width)
  }

  /** The text a sequence of tokens stands for; convert is the library's rendering of a directive. */
  function Render(convert: string -> string, name: string, tokens: seq<Token>): string {
    Join(Texts(convert, name, tokens))
  }

  function Texts(convert: string -> string, name: string, tokens: seq<Token>): (texts: seq<string>)
    ensures |texts| == |tokens|
    ensures forall k :: 0 <= k < |tokens| ==> texts[k] == TokenText(convert, name, tokens[k])
  {
    seq(|tokens|, k requires 0 <= k < |tokens| => TokenText(convert, name, tokens[k]))
  }

  function Join(parts: seq<string>): string {
    if parts == [] then [] else Join(parts[..|parts| - 1]) + parts[|parts| - 1]
  }

  /** What a strftime that knew the zone's name would produce: the text if it fits with its terminator. */
  datatype Result = Nothing | Text(value: string)

  function Fitting(text: string, size: nat): Result {
    if |text| < size then Text(text) else Nothing
  }

  // ----- Quoting zone names -----

  function QuoteChar(c: char): string {
    if c == '%' then "%%" else [c]
  }

  /** The same characters as format text. */
  function Quoted(name: string, upper: bool, k: nat): (s: string)
    requires k <= |name|
    ensures |s| <= 2 * k
  {
    if k == 0 then [] else Quoted(name, upper, k - 1) + QuoteChar(CasedChar(name[k - 1], upper))
  }

  /** A token as format text again, with %Z replaced by quoted literal text. */
  function Expand(name: string, token: Token): string {
    match token
    case Plain(c) => [c]
    case Directive(text) => text
    case Zone(style, width) => Repeat(style.pad, Padding(name, style, width)) + Quoted(name, style.upper, |name|)
  }

  function ExpandAll(name: string, tokens: seq<Token>): string {
    if tokens == [] then [] else ExpandAll(name, tokens[..|tokens| - 1]) + Expand(name, tokens[|tokens| - 1])
  }

  function ZoneLength(name: string, token: Token): nat {
    if token.Zone? then |ZoneText(name, token.style, token.width)| else 0
  }

  /** How much zone text the tokens contain. */
  function ZoneTotal(name: string, tokens: seq<Token>): nat {
    if tokens == [] then 0 else ZoneTotal(name, tokens[..|tokens| - 1]) + ZoneLength(name, tokens[|tokens| - 1])
  }

  // ----- The expansion means what the format meant -----

  /** A complete directive other than %Z. */
  predicate Closed(text: string) {
    |text| > 1 && text[0] == '%' && Conversion(text) == |text| - 1 && text[|text| - 1] != 'Z'
  }

  /** A directive that the end of the format cut short. */
  predicate CutShort(text: string) {
    |text| > 0 && text[0] == '%' && Conversion(text) == |text|
  }

  predicate Complete(token: Token) {
    match token
    case Plain(c) => c != '%'
    case Directive(text) => Closed(text)
    case Zone(style, _) => style.pad != '%'
  }

  /** Only the last token of a format can be incomplete. */
  predicate WellFormed(tokens: seq<Token>) {
    forall k :: 0 <= k < |tokens| ==>
      Complete(tokens[k]) || (k == |tokens| - 1 && tokens[k].Directive? && CutShort(tokens[k].text))
  }

  lemma {:induction false} FlagsEndPrefix(s: string, t: string, i: nat)
    requires i <= |s| && FlagsEnd(s, i) < |s| && s <= t
    ensures FlagsEnd(t, i) == FlagsEnd(s, i)
    decreases |s| - i
  {
    assert i < |s| ==> t[i] == s[i];
    if i < |s| && IsFlag(s[i]) {
      FlagsEndPrefix(s, t, i + 1);
    }
  }

  lemma {:induction false} DigitsEndPrefix(s: string, t: string, i: nat)
    requires i <= |s| && DigitsEnd(s, i) < |s| && s <= t
    ensures DigitsEnd(t, i) == DigitsEnd(s, i)
    decreases |s| - i
  {
  }

  /** The scan of a complete directive does not depend on what follows it. */
  lemma {:induction false} ClosedScan(text: string, rest: string)
    requires Closed(text)
    ensures Scan(text + rest) == [Directive(text)] + Scan(rest)
  {
    var s := text + rest;
    FlagsEndPrefix(text, s, 1);
    DigitsEndPrefix(text, s, FlagsEnd(text, 1));
    assert Conversion(s) == |text| - 1;
    assert s[..|text|] == text && s[|text|..] == rest;
  }

  lemma {:induction false} PlainScan(c: char, rest: string)
    requires c != '%'
    ensures Scan([c] + rest) == [Plain(c)] + Scan(rest)
  {
  }

  lemma {:induction false} CutShortScan(text: string)
    requires CutShort(text)
    ensures Scan(text) == [Directive(text)]
  {
    assert text[..|text|] == text && text[|text|..] == [];
  }

  /** Tokens without %Z, written down again. */
  function Written(tokens: seq<Token>): string
    requires forall k :: 0 <= k < |tokens| ==> !tokens[k].Zone?
  {
    if tokens == [] then []
    else (if tokens[0].Plain? then [tokens[0].c] else tokens[0].text) + Written(tokens[1..])
  }

  /** Scanning undoes writing. */
  lemma {:induction false} ScanOfWritten(tokens: seq<Token>)
    requires WellFormed(tokens) && forall k :: 0 <= k < |tokens| ==> !tokens[k].Zone?
    ensures Scan(Written(tokens)) == tokens
    decreases |tokens|
  {
    if tokens != [] {
      var rest := tokens[1..];
      assert forall k :: 0 <= k < |rest| ==> rest[k] == tokens[k + 1];
      ScanOfWritten(rest);
      if tokens[0].Plain? {
        PlainScan(tokens[0].c, Written(rest));
      } else if Complete(tokens[0]) {
        ClosedScan(tokens[0].text, Written(rest));
      } else {
        assert rest == [] && Written(tokens) == tokens[0].text;
        CutShortScan(tokens[0].text);
      }
      assert tokens == [tokens[0]] + rest;
    }
  }

  lemma {:induction false} WrittenConcat(a: seq<Token>, b: seq<Token>)
    requires forall k :: 0 <= k < |a| ==> !a[k].Zone?
    requires forall k :: 0 <= k < |b| ==> !b[k].Zone?
    ensures Written(a + b) == Written(a) + Written(b)
    decreases |a|
  {
    if a == [] {
      assert a + b == b;
    } else {
      WrittenConcat(a[1..], b);
      assert (a + b)[1..] == a[1..] + b;
    }
  }

  lemma {:induction false} JoinConcat(a: seq<string>, b: seq<string>)
    ensures Join(a + b) == Join(a) + Join(b)
    decreases |b|
  {
    if b == [] {
      assert a + b == a;
    } else {
      var n := |b| - 1;
      var all := a + b;
      JoinConcat(a, b[..n]);
      calc {
        Join(all);
        Join(all[..|all| - 1]) + all[|all| - 1];
        { assert all[..|all| - 1] == a + b[..n] && all[|all| - 1] == b[n]; }
        (Join(a) + Join(b[..n])) + b[n];
        Join(a) + (Join(b[..n]) + b[n]);
        Join(a) + Join(b);
      }
    }
  }

  lemma {:induction false} RenderConcat(convert: string -> string, name: string, a: seq<Token>, b: seq<Token>)
    ensures Render(convert, name, a + b) == Render(convert, name, a) + Render(convert, name, b)
  {
    JoinConcat(Texts(convert, name, a), Texts(convert, name, b));
    assert Texts(convert, name, a + b) == Texts(convert, name, a) + Texts(convert, name, b);
  }

  lemma {:induction false} RenderOne(convert: string -> string, name: string, token: Token)
    ensures Render(convert, name, [token]) == TokenText(convert, name, token)
  {
    var texts := Texts(convert, name, [token]);
    assert texts[..0] == [] && texts[0] == TokenText(convert, name, [token][0]);
    assert Join(texts[..0]) == [];
  }

  lemma {:induction false} RenderLast(convert: string -> string, name: string, tokens: seq<Token>)
    requires tokens != []
    ensures Render(convert, name, tokens) ==
            Render(convert, name, tokens[..|tokens| - 1]) + TokenText(convert, name, tokens[|tokens| - 1])
  {
    var n := |tokens| - 1;
    RenderConcat(convert, name, tokens[..n], [tokens[n]]);
    RenderOne(convert, name, tokens[n]);
    assert tokens == tokens[..n] + [tokens[n]];
  }

  function LiteralChar(c: char): (token: Token)
    ensures !token.Zone? && Complete(token)
  {
    assert Closed("%%");
    if c == '%' then Directive("%%") else Plain(c)
  }

  /** Padding as tokens. */
  function PadTokens(c: char, n: nat): (tokens: seq<Token>)
    ensures forall k :: 0 <= k < |tokens| ==> tokens[k] == Plain(c)
  {
    if n == 0 then [] else PadTokens(c, n - 1) + [Plain(c)]
  }

  /** The first k characters of the quoted name as tokens. */
  function NameTokens(name: string, upper: bool, k: nat): (tokens: seq<Token>)
    requires k <= |name|
    ensures forall i :: 0 <= i < |tokens| ==> !tokens[i].Zone? && Complete(tokens[i])
  {
    if k == 0 then [] else NameTokens(name, upper, k - 1) + [LiteralChar(CasedChar(name[k - 1], upper))]
  }

  lemma {:induction false} WrittenOne(token: Token)
    requires !token.Zone?
    ensures Written([token]) == if token.Plain? then [token.c] else token.text
  {
  }

  lemma {:induction false} PadTokensWritten(c: char, n: nat)
    ensures Written(PadTokens(c, n)) == Repeat(c, n)
  {
    if n > 0 {
      PadTokensWritten(c, n - 1);
      WrittenConcat(PadTokens(c, n - 1), [Plain(c)]);
      WrittenOne(Plain(c));
    }
  }

  lemma {:induction false} NameTokensWritten(name: string, upper: bool, k: nat)
    requires k <= |name|
    ensures Written(NameTokens(name, upper, k)) == Quoted(name, upper, k)
  {
    if k > 0 {
      var token := LiteralChar(CasedChar(name[k - 1], upper));
      NameTokensWritten(name, upper, k - 1);
      WrittenConcat(NameTokens(name, upper, k - 1), [token]);
      WrittenOne(token);
    }
  }

  lemma {:induction false} PadTokensRender(convert: string -> string, zone: string, c: char, n: nat)
    ensures Render(convert, zone, PadTokens(c, n)) == Repeat(c, n)
  {
    if n > 0 {
      PadTokensRender(convert, zone, c, n - 1);
      RenderConcat(convert, zone, PadTokens(c, n - 1), [Plain(c)]);
      RenderOne(convert, zone, Plain(c));
    }
  }

  lemma {:induction false} NameTokensRender(convert: string -> string, zone: string, name: string, upper: bool, k: nat)
    requires k <= |name| && convert("%%") == "%"
    ensures Render(convert, zone, NameTokens(name, upper, k)) == Cased(name, upper, k)
  {
    if k > 0 {
      var token := LiteralChar(CasedChar(name[k - 1], upper));
      NameTokensRender(convert, zone, name, upper, k - 1);
      RenderConcat(convert, zone, NameTokens(name, upper, k - 1), [token]);
      RenderOne(convert, zone, token);
    }
  }

  /** A token with %Z resolved. */
  function Resolved(name: string, token: Token): (tokens: seq<Token>)
    ensures forall k :: 0 <= k < |tokens| ==> !tokens[k].Zone?
  {
    if token.Zone? then
      PadTokens(token.style.pad, Padding(name, token.style, token.width)) + NameTokens(name, token.style.upper, |name|)
    else [token]
  }

  function ResolvedAll(name: string, tokens: seq<Token>): (all: seq<Token>)
    ensures forall k :: 0 <= k < |all| ==> !all[k].Zone?
  {
    if tokens == [] then [] else ResolvedAll(name, tokens[..|tokens| - 1]) + Resolved(name, tokens[|tokens| - 1])
  }

  lemma {:induction false} ResolvedIsExpand(name: string, tokens: seq<Token>)
    ensures Written(ResolvedAll(name, tokens)) == ExpandAll(name, tokens)
    decreases |tokens|
  {
    if tokens != [] {
      var n := |tokens| - 1;
      ResolvedIsExpand(name, tokens[..n]);
      WrittenConcat(ResolvedAll(name, tokens[..n]), Resolved(name, tokens[n]));
      ResolvedOneIsExpand(name, tokens[n]);
    }
  }

  lemma {:induction false} ResolvedOneIsExpand(name: string, token: Token)
    ensures Written(Resolved(name, token)) == Expand(name, token)
  {
    if token.Zone? {
      var style, n := token.style, Padding(name, token.style, token.width);
      PadTokensWritten(style.pad, n);
      NameTokensWritten(name, style.upper, |name|);
      WrittenConcat(PadTokens(style.pad, n), NameTokens(name, style.upper, |name|));
    } else {
      WrittenOne(token);
    }
  }

  lemma {:induction false} ResolvedOneRenders(convert: string -> string, name: string, token: Token)
    requires convert("%%") == "%"
    ensures Render(convert, name, Resolved(name, token)) == TokenText(convert, name, token)
  {
    if token.Zone? {
      var style, n := token.style, Padding(name, token.style, token.width);
      PadTokensRender(convert, name, style.pad, n);
      NameTokensRender(convert, name, name, style.upper, |name|);
      RenderConcat(convert, name, PadTokens(style.pad, n), NameTokens(name, style.upper, |name|));
    } else {
      RenderOne(convert, name, token);
    }
  }

  lemma {:induction false} ResolvedRenders(convert: string -> string, name: string, tokens: seq<Token>)
    requires convert("%%") == "%"
    ensures Render(convert, name, ResolvedAll(name, tokens)) == Render(convert, name, tokens)
    decreases |tokens|
  {
    if tokens != [] {
      var n := |tokens| - 1;
      var last := tokens[n];
      ResolvedRenders(convert, name, tokens[..n]);
      RenderConcat(convert, name, ResolvedAll(name, tokens[..n]), Resolved(name, last));
      RenderLast(convert, name, tokens);
      ResolvedOneRenders(convert, name, last);
    }
  }

  lemma {:induction false} ResolvedComplete(name: string, tokens: seq<Token>)
    requires forall k :: 0 <= k < |tokens| ==> Complete(tokens[k])
    ensures forall k :: 0 <= k < |ResolvedAll(name, tokens)| ==> Complete(ResolvedAll(name, tokens)[k])
    decreases |tokens|
  {
    if tokens != [] {
      ResolvedComplete(name, tokens[..|tokens| - 1]);
    }
  }

  lemma {:induction false} ResolvedWellFormed(name: string, tokens: seq<Token>)
    requires WellFormed(tokens)
    ensures WellFormed(ResolvedAll(name, tokens))
  {
    if tokens != [] {
      ResolvedComplete(name, tokens[..|tokens| - 1]);
    }
  }

  /** Scanning the expansion gives the meaning of the tokens, each %Z replaced by the zone's text. */
  lemma {:induction false} ExpansionPreservesMeaning(convert: string -> string, name: string, tokens: seq<Token>)
    requires convert("%%") == "%" && WellFormed(tokens)
    ensures Render(convert, name, Scan(ExpandAll(name, tokens))) == Render(convert, name, tokens)
  {
    ResolvedWellFormed(name, tokens);
    ResolvedIsExpand(name, tokens);
    ResolvedRenders(convert, name, tokens);
    ScanOfWritten(ResolvedAll(name, tokens));
  }

  // ----- Facts about scanning -----

  lemma {:induction false} StylePad(flags: string)
    ensures StyleOf(flags).pad != '%'
    decreases |flags|
  {
    if flags != [] { StylePad(flags[..|flags| - 1]); }
  }

  lemma {:induction false} FirstTokenComplete(s: string)
    requires |s| > 0
    ensures Complete(FirstToken(s)) ||
            (TokenLength(s) == |s| && FirstToken(s).Directive? && CutShort(FirstToken(s).text))
  {
    if s[0] == '%' {
      var i, j := FlagsEnd(s, 1), Conversion(s);
      if j == |s| {
        assert s[..|s|] == s;
      } else if s[j] == 'Z' {
        StylePad(s[1..i]);
      } else {
        var text := s[..j + 1];
        FlagsEndCut(s, 1, j + 1);
        DigitsEndCut(s, i, j + 1);
        assert Conversion(text) == j;
      }
    }
  }

  lemma {:induction false} FlagsEndCut(s: string, i: nat, n: nat)
    requires i <= |s| && i <= FlagsEnd(s, i) < n <= |s|
    ensures FlagsEnd(s[..n], i) == FlagsEnd(s, i)
    decreases |s| - i
  {
    if IsFlag(s[i]) { FlagsEndCut(s, i + 1, n); }
  }

  lemma {:induction false} DigitsEndCut(s: string, i: nat, n: nat)
    requires i <= |s| && i <= DigitsEnd(s, i) < n <= |s|
    ensures DigitsEnd(s[..n], i) == DigitsEnd(s, i)
    decreases |s| - i
  {
  }

  lemma {:induction false} ScanWellFormed(s: string)
    ensures WellFormed(Scan(s))
    decreases |s|
  {
    if |s| > 0 {
      var rest := s[TokenLength(s)..];
      ScanWellFormed(rest);
      FirstTokenComplete(s);
      var tokens := Scan(s);
      forall k | 0 <= k < |tokens|
        ensures Complete(tokens[k]) || (k == |tokens| - 1 && tokens[k].Directive? && CutShort(tokens[k].text))
      {
        if k > 0 { assert tokens[k] == Scan(rest)[k - 1]; }
      }
    }
  }

  /** All of a format's zone text appears in what it means. */
  lemma {:induction false} ZoneTextShows(convert: string -> string, name: string, tokens: seq<Token>)
    ensures ZoneTotal(name, tokens) <= |Render(convert, name, tokens)|
    decreases |tokens|
  {
    if tokens != [] {
      ZoneTextShows(convert, name, tokens[..|tokens| - 1]);
      RenderLast(convert, name, tokens);
    }
  }
}
