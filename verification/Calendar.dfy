/** format_calendar: replaces %Z by quoted text in a buffer of bounded size, then formats. */
module Calendar {
  import opened CalendarFormat
  import opened Common

  /** The library's strftime, which does not know the guest's zone. */
  function Strftime(convert: string -> string, size: nat, format: string): Result {
    Fitting(Render(convert, [], Scan(format)), size)
  }

  lemma {:induction false} NameUnused(convert: string -> string, a: string, b: string, tokens: seq<Token>)
    requires forall k :: 0 <= k < |tokens| ==> !tokens[k].Zone?
    ensures Render(convert, a, tokens) == Render(convert, b, tokens)
  {
    assert Texts(convert, a, tokens) == Texts(convert, b, tokens);
  }

  /** The library renders the expansion as the format is meant. */
  lemma {:induction false} ExpansionIsEnough(convert: string -> string, name: string, format: string, size: nat)
    requires convert("%%") == "%"
    ensures Strftime(convert, size, ExpandAll(name, Scan(format))) == Fitting(Render(convert, name, Scan(format)), size)
  {
    var tokens := Scan(format);
    ScanWellFormed(format);
    ExpansionPreservesMeaning(convert, name, tokens);
    ResolvedWellFormed(name, tokens);
    ResolvedIsExpand(name, tokens);
    ScanOfWritten(ResolvedAll(name, tokens));
    NameUnused(convert, name, [], ResolvedAll(name, tokens));
  }

  lemma {:induction false} NoZoneWithoutZ(format: string)
    requires 'Z' !in format
    ensures forall k :: 0 <= k < |Scan(format)| ==> !Scan(format)[k].Zone?
    decreases |format|
  {
    if |format| > 0 {
      NoZoneWithoutZ(format[TokenLength(format)..]);
    }
  }

  // ----- Scanning one directive -----

  function Min(a: nat, b: nat): nat {
    if a < b then a else b
  }

  lemma {:induction false} FlagNext(s: string, i: nat)
    requires 1 <= i < |s| && IsFlag(s[i])
    ensures StyleOf(s[1..i + 1]) == After(StyleOf(s[1..i]), s[i])
    ensures FlagsEnd(s, i + 1) == FlagsEnd(s, i)
  {
    var flags := s[1..i + 1];
    assert |flags| == i && flags[..i - 1] == s[1..i];
    assert flags[i - 1] == s[i];
  }

  /** The flags from index i on. */
  method ScanFlags(s: string) returns (i: nat, style: Style)
    requires |s| > 0
    ensures i == FlagsEnd(s, 1) && style == StyleOf(s[1..i])
  {
    var pad, noPad, upper := ' ', false, false;
    i := 1;
    while i < |s| && IsFlag(s[i])
      invariant 1 <= i <= |s| && FlagsEnd(s, i) == FlagsEnd(s, 1)
      invariant Style(pad, noPad, upper) == StyleOf(s[1..i])
    {
      FlagNext(s, i);
      if s[i] == '-' {
        noPad := true;
      }
      if s[i] == '_' || s[i] == '0' {
        noPad := false;
        pad := if s[i] == '0' then '0' else ' ';
      }
      if s[i] == '^' || s[i] == '#' {
        upper := true;
      }
      i := i + 1;
    }
    style := Style(pad, noPad, upper);
  }

  lemma {:induction false} DigitNext(s: string, i: nat, j: nat)
    requires i <= j < |s| && forall k :: i <= k <= j ==> IsDigit(s[k])
    ensures Value(s[i..j + 1]) == 10 * Value(s[i..j]) + (s[j] as int - '0' as int)
    ensures DigitsEnd(s, j + 1) == DigitsEnd(s, j)
  {
    var digits := s[i..j + 1];
    assert |digits| == j + 1 - i && digits[..j - i] == s[i..j];
    assert digits[j - i] == s[j];
  }

  /** The width: the decimal value, cut off at size. */
  method ScanWidth(s: string, i: nat, size: nat) returns (j: nat, width: nat)
    requires i <= |s| && size > 0
    ensures j == DigitsEnd(s, i) && width == Min(Value(s[i..j]), size)
  {
    j, width := i, 0;
    while j < |s| && '0' <= s[j] <= '9'
      invariant i <= j <= |s| && DigitsEnd(s, j) == DigitsEnd(s, i)
      invariant forall k :: i <= k < j ==> IsDigit(s[k])
      invariant width == Min(Value(s[i..j]), size)
    {
      DigitNext(s, i, j);
      var digit: nat := s[j] as int - '0' as int;
      Saturates(Value(s[i..j]), digit, size);
      j := j + 1;
      if digit >= size || width > (size - digit) / 10 {
        width := size;
      } else {
        width := width * 10 + digit;
      }
    }
  }

  /** Cutting off after every digit cuts off the whole number. */
  lemma {:induction false} Saturates(value: nat, digit: nat, size: nat)
    requires size > 0 && digit < 10
    ensures var width := Min(value, size);
            Min(10 * value + digit, size) ==
            if digit >= size || width > (size - digit) / 10 then size else width * 10 + digit
  {
  }

  // ----- Writing -----

  /** The expansion buffer: what has been written so far, and room for a terminator. */
  class Buffer {
    const data: array<char>
    var used: nat
    ghost var text: string

    ghost predicate Valid()
      reads this, data
    {
      |text| == used < data.Length && forall k {:trigger data[k]} :: 0 <= k < used ==> data[k] == text[k]
    }

    constructor (capacity: nat)
      requires capacity > 0
      ensures Valid() && text == [] && data.Length == capacity && fresh(data)
    {
      data := new char[capacity];
      used, text := 0, [];
    }

    method Put(c: char)
      requires Valid() && used + 1 < data.Length
      modifies this, data
      ensures Valid() && text == old(text) + [c]
    {
      data[used] := c;
      used, text := used + 1, text + [c];
    }
  }

  method PutText(b: Buffer, s: string)
    requires b.Valid() && b.used + |s| < b.data.Length
    modifies b, b.data
    ensures b.Valid() && b.text == old(b.text) + s
  {
    var k := 0;
    while k < |s|
      invariant 0 <= k <= |s|
      invariant b.Valid() && b.text == old(b.text) + s[..k]
    {
      b.Put(s[k]);
      k := k + 1;
    }
    assert s[..k] == s;
  }

  /** The quoted name; it fails only if the buffer might not hold it. */
  method PutName(b: Buffer, name: string, upper: bool) returns (ok: bool)
    requires b.Valid()
    modifies b, b.data
    ensures b.Valid()
    ensures ok ==> b.text == old(b.text) + Quoted(name, upper, |name|)
    ensures !ok ==> old(b.used) + 2 * |name| >= b.data.Length
  {
    var k := 0;
    while k < |name|
      invariant 0 <= k <= |name| && b.Valid()
      invariant b.text == old(b.text) + Quoted(name, upper, k)
    {
      if b.used + 2 >= b.data.Length {
        return false;
      }
      PutChar(b, name[k], CasedChar(name[k], upper));
      k := k + 1;
    }
    ok := true;
  }

  method PutChar(b: Buffer, c: char, shown: char)
    requires b.Valid() && b.used + 2 < b.data.Length && (c == '%' <==> shown == '%')
    modifies b, b.data
    ensures b.Valid() && b.text == old(b.text) + QuoteChar(shown)
  {
    if c == '%' {
      b.Put('%');
    }
    b.Put(shown);
  }

  /** One %Z. It fails only if its text does not fit the result or twice it does not fit the buffer. */
  method PutZone(b: Buffer, size: nat, name: string, style: Style, width: nat, ghost full: nat) returns (ok: bool)
    requires b.Valid() && size > 0 && width == Min(full, size)
    modifies b, b.data
    ensures b.Valid()
    ensures ok ==> b.text == old(b.text) + Expand(name, Zone(style, full))
    ensures !ok ==> var length := Padding(name, style, full) + |name|;
                    length >= size || old(b.used) + 2 * length >= b.data.Length
  {
    var padding := if !style.noPad && width > |name| then width - |name| else 0;
    if |name| >= size || padding >= size - |name| || padding >= b.data.Length - b.used {
      return false;
    }
    ok := PutPadded(b, name, style, padding);
  }

  method PutPadded(b: Buffer, name: string, style: Style, padding: nat) returns (ok: bool)
    requires b.Valid() && b.used + padding < b.data.Length
    modifies b, b.data
    ensures b.Valid()
    ensures ok ==> b.text == old(b.text) + (Repeat(style.pad, padding) + Quoted(name, style.upper, |name|))
    ensures !ok ==> old(b.used) + padding + 2 * |name| >= b.data.Length
  {
    var pad := Repeat(style.pad, padding);
    PutText(b, pad);
    ok := PutName(b, name, style.upper);
  }

  /** One turn of the expansion loop, at the start of s. */
  method PutToken(b: Buffer, s: string, size: nat, name: string) returns (ok: bool, n: nat)
    requires b.Valid() && |s| > 0 && size > 0
    modifies b, b.data
    ensures b.Valid() && n == TokenLength(s)
    ensures ok ==> b.text == old(b.text) + Expand(name, FirstToken(s))
    ensures !ok ==> var length := ZoneLength(name, FirstToken(s));
                    length >= size || old(b.used) + n + 2 * length >= b.data.Length
  {
    n := 1;
    if s[0] != '%' {
      ok := b.used + 1 < b.data.Length;
      if ok {
        b.Put(s[0]);
      }
      return;
    }
    var i, style := ScanFlags(s);
    var width;
    n, width := ScanWidth(s, i, size);
    if n < |s| && s[n] == 'Z' {
      ghost var full := Value(s[i..n]);
      n := n + 1;
      ok := PutZone(b, size, name, style, width, full);
      return;
    }
    if n < |s| {
      n := n + 1;
    }
    ok := n < b.data.Length - b.used;
    if ok {
      PutText(b, s[..n]);
    }
  }

  lemma {:induction false} ZoneTotalGrows(name: string, done: seq<Token>, rest: seq<Token>)
    ensures ZoneTotal(name, done) <= ZoneTotal(name, done + rest)
    decreases |rest|
  {
    if rest == [] {
      assert done + rest == done;
    } else {
      var n := |rest| - 1;
      ZoneTotalGrows(name, done, rest[..n]);
      assert (done + rest)[..|done| + n] == done + rest[..n];
    }
  }

  lemma {:induction false} OneMore(name: string, done: seq<Token>, token: Token)
    ensures ExpandAll(name, done + [token]) == ExpandAll(name, done) + Expand(name, token)
    ensures ZoneTotal(name, done + [token]) == ZoneTotal(name, done) + ZoneLength(name, token)
  {
  }

  lemma {:induction false} ExpandLength(name: string, s: string)
    requires |s| > 0
    ensures |Expand(name, FirstToken(s))| <= TokenLength(s) + 2 * ZoneLength(name, FirstToken(s))
  {
  }

  /** The expansion loop. The buffer is large enough unless the zone text alone overflows the result. */
  method ExpandFormat(b: Buffer, format: string, size: nat, name: string) returns (ok: bool)
    requires b.Valid() && b.text == [] && size > 0 && b.data.Length == |format| + 2 * size + 1
    modifies b, b.data
    ensures b.Valid()
    ensures ok ==> b.text == ExpandAll(name, Scan(format))
    ensures !ok ==> ZoneTotal(name, Scan(format)) >= size
  {
    var at := 0;
    ghost var done: seq<Token> := [];
    UnderwayStarts(format, name);
    while at < |format|
      invariant b.Valid() && Underway(format, at, name, done, b.text)
      invariant b.data.Length == |format| + 2 * size + 1
    {
      ok, at, done := Turn(b, format, at, size, name, done);
      if !ok {
        return;
      }
    }
    UnderwayEnds(format, at, name, done, b.text);
    ok := true;
  }

  method Turn(b: Buffer, format: string, at: nat, size: nat, name: string, ghost done: seq<Token>)
    returns (ok: bool, at': nat, ghost done': seq<Token>)
    requires b.Valid() && Underway(format, at, name, done, b.text) && at < |format|
    requires size > 0 && b.data.Length == |format| + 2 * size + 1
    modifies b, b.data
    ensures b.Valid() && at < at'
    ensures if ok then Underway(format, at', name, done', b.text) else ZoneTotal(name, Scan(format)) >= size
  {
    var s := format[at..];
    Onward(format, at, name, done, b.text, size);
    done' := done + [FirstToken(s)];
    var n;
    ok, n := PutToken(b, s, size, name);
    at' := at + n;
  }

  lemma {:induction false} UnderwayStarts(format: string, name: string)
    ensures Underway(format, 0, name, [], [])
  {
  }

  lemma {:induction false} UnderwayEnds(format: string, at: nat, name: string, done: seq<Token>, text: string)
    requires Underway(format, at, name, done, text) && at == |format|
    ensures text == ExpandAll(name, Scan(format))
  {
    assert done + [] == done;
  }

  /** Where the expansion loop stands: done has been read, and the text is its expansion. */
  ghost predicate Underway(format: string, at: nat, name: string, done: seq<Token>, text: string) {
    && at <= |format| && Scan(format) == done + Scan(format[at..])
    && text == ExpandAll(name, done) && |text| <= at + 2 * ZoneTotal(name, done)
  }

  lemma {:induction false} ScanSplits(format: string, at: nat, done: seq<Token>)
    requires at < |format| && Scan(format) == done + Scan(format[at..])
    ensures var s := format[at..];
            var token, n := FirstToken(s), TokenLength(s);
            at + n <= |format| && Scan(format) == (done + [token]) + Scan(format[at + n..])
  {
    var s := format[at..];
    var token, n := FirstToken(s), TokenLength(s);
    var rest := Scan(s[n..]);
    assert format[at + n..] == s[n..];
    assert Scan(s) == [token] + rest;
    assert done + ([token] + rest) == (done + [token]) + rest;
  }

  /** The zone text that is already read is too long for the result, or for twice it in the buffer. */
  predicate Overflows(format: string, name: string, text: string, token: Token, n: nat, size: nat) {
    ZoneLength(name, token) >= size || |text| + n + 2 * ZoneLength(name, token) >= |format| + 2 * size + 1
  }

  lemma {:induction false} Onward(format: string, at: nat, name: string, done: seq<Token>, text: string, size: nat)
    requires Underway(format, at, name, done, text) && at < |format|
    ensures var s := format[at..];
            var token, n := FirstToken(s), TokenLength(s);
            && Underway(format, at + n, name, done + [token], text + Expand(name, token))
            && (Overflows(format, name, text, token, n, size) ==> ZoneTotal(name, Scan(format)) >= size)
  {
    var s := format[at..];
    ExpandLength(name, s);
    ScanSplits(format, at, done);
    OnwardBy(format, at, name, done, text, size, FirstToken(s), TokenLength(s));
  }

  lemma {:induction false} OnwardBy(format: string, at: nat, name: string, done: seq<Token>, text: string, size: nat,
                                    token: Token, n: nat)
    requires Underway(format, at, name, done, text) && at + n <= |format|
    requires Scan(format) == (done + [token]) + Scan(format[at + n..])
    requires |Expand(name, token)| <= n + 2 * ZoneLength(name, token)
    ensures Underway(format, at + n, name, done + [token], text + Expand(name, token))
    ensures Overflows(format, name, text, token, n, size) ==> ZoneTotal(name, Scan(format)) >= size
  {
    OneMore(name, done, token);
    ZoneTotalGrows(name, done + [token], Scan(format[at + n..]));
  }

  /** format_calendar gives exactly the text that a strftime knowing the zone's name would give, or
      nothing if that does not fit; only a failed or absurdly large allocation makes it give less. */
  method FormatCalendar(size: nat, format: string, zone: Option<string>, isdst: int, convert: string -> string,
                        mallocOk: bool)
    returns (r: Result)
    requires |format| < SIZE_MAX && convert("%%") == "%"
    ensures var name := if zone.Some? && isdst >= 0 then zone.value else [];
            r == if size == 0 || ('Z' in format && (size > (SIZE_MAX - |format| - 1) / 2 || !mallocOk)) then Nothing
                 else Fitting(Render(convert, name, Scan(format)), size)
  {
    if size == 0 {
      return Nothing;
    }
    var name := if zone.Some? && isdst >= 0 then zone.value else [];
    if 'Z' !in format {
      NoZoneWithoutZ(format);
      NameUnused(convert, name, [], Scan(format));
      return Strftime(convert, size, format);
    }
    if size > (SIZE_MAX - |format| - 1) / 2 || !mallocOk {
      return Nothing;
    }
    var b := new Buffer(|format| + 2 * size + 1);
    var ok := ExpandFormat(b, format, size, name);
    if !ok {
      ZoneTextShows(convert, name, Scan(format));
      return Nothing;
    }
    ExpansionIsEnough(convert, name, format, size);
    assert b.data[..b.used] == b.text;
    r := Strftime(convert, size, b.data[..b.used]);
  }
}
