/** The integer token, src/number.rs: decimal by default, binary after a leading `0b` and
    hexadecimal after a leading `0x`. The lexer reads to the end of its input and keeps
    only the characters that are digits in the current radix. */
module Numbers {
  import opened Wrappers
  import opened Spans
  import opened Errors
  import opened Digits
  import opened CharLexing

  datatype IntegerFormat = Binary | Decimal | Hex

  /** The `i64` value is an unbounded integer here. */
  datatype Integer = Integer(format: IntegerFormat, value: int)

  function Radix(f: IntegerFormat): nat
  {
    match f
    case Binary => 2
    case Decimal => 10
    case Hex => 16
  }

  /** The characters of `s` that are digits in `radix`, in order. */
  function DigitsIn(s: seq<char>, radix: nat): (d: seq<char>)
    ensures |d| <= |s|
  {
    if s == [] then []
    else DigitsIn(s[..|s| - 1], radix) + (if IsDigit(s[|s| - 1], radix) then [s[|s| - 1]] else [])
  }

  /** Extending the input by one character extends the digits by it when it is one. */
  lemma DigitsInSnoc(s: seq<char>, i: nat, j: nat, radix: nat)
    requires i <= j < |s|
    ensures DigitsIn(s[i..j + 1], radix) == DigitsIn(s[i..j], radix) + (if IsDigit(s[j], radix) then [s[j]] else [])
  {
    assert s[i..j + 1][..j - i] == s[i..j];
  }

  /** A string made only of digits is its own digit list. */
  lemma {:induction false} DigitsInAllDigits(s: seq<char>, radix: nat)
    requires forall i :: 0 <= i < |s| ==> IsDigit(s[i], radix)
    ensures DigitsIn(s, radix) == s
  {
    if s != [] {
      DigitsInAllDigits(s[..|s| - 1], radix);
    }
  }

  /** Position `i` switches the radix: a `b` or `x` after exactly the digit `0`. */
  predicate SwitchAt(s: seq<char>, i: nat)
    requires i < |s|
  {
    (s[i] == 'b' || s[i] == 'x') && DigitsIn(s[..i], 10) == "0"
  }

  /** The first switching position at or after `i`; later ones are read as ordinary
      characters. */
  function FindSwitch(s: seq<char>, i: nat): (r: Option<nat>)
    requires i <= |s|
    ensures r.Some? ==> i <= r.value < |s|
    decreases |s| - i
  {
    if i == |s| then None else if SwitchAt(s, i) then Some(i) else FindSwitch(s, i + 1)
  }

  /** `FindSwitch` finds the first switching position, and `None` means there is none. */
  lemma {:induction false} FindSwitchIsFirst(s: seq<char>, i: nat)
    requires i <= |s|
    ensures var r := FindSwitch(s, i);
      && (r.Some? ==> SwitchAt(s, r.value) && forall k :: i <= k < r.value ==> !SwitchAt(s, k))
      && (r.None? ==> forall k :: i <= k < |s| ==> !SwitchAt(s, k))
    decreases |s| - i
  {
    if i < |s| && !SwitchAt(s, i) {
      FindSwitchIsFirst(s, i + 1);
    }
  }

  /** Input with no `b` and no `x` never switches. */
  lemma {:induction false} NoSwitchWithoutMarker(s: seq<char>, i: nat)
    requires i <= |s|
    requires forall k :: i <= k < |s| ==> s[k] != 'b' && s[k] != 'x'
    ensures FindSwitch(s, i).None?
    decreases |s| - i
  {
    if i < |s| {
      NoSwitchWithoutMarker(s, i + 1);
    }
  }

  /** One character before any switch: it switches exactly when it is a `b` or `x` after
      the single digit `0`, and otherwise it is kept when it is a decimal digit. */
  lemma DecimalStep(s: seq<char>, i: nat)
    requires i < |s|
    ensures SwitchAt(s, i) <==> (s[i] == 'b' || s[i] == 'x') && DigitsIn(s[..i], 10) == "0"
    ensures !SwitchAt(s, i) ==> FindSwitch(s, i) == FindSwitch(s, i + 1)
    ensures SwitchAt(s, i) ==> FindSwitch(s, i) == Some(i)
    ensures DigitsIn(s[..i + 1], 10) == DigitsIn(s[..i], 10) + (if IsDigit(s[i], 10) then [s[i]] else [])
  {
    DigitsInSnoc(s, 0, i, 10);
    assert s[0..i] == s[..i] && s[0..i + 1] == s[..i + 1];
  }

  function FormatOf(c: char): IntegerFormat
  {
    if c == 'b' then Binary else Hex
  }

  /** The format and the digit string the lexer collects from input `s`. */
  function Scan(s: seq<char>): (r: (IntegerFormat, seq<char>))
    ensures FindSwitch(s, 0).None? ==> r == (Decimal, DigitsIn(s, 10))
    ensures FindSwitch(s, 0).Some? ==> var j := FindSwitch(s, 0).value;
      r.0 == (if s[j] == 'b' then Binary else Hex) && r.1 == DigitsIn(s[j + 1..], Radix(r.0))
  {
    match FindSwitch(s, 0)
    case None => (Decimal, DigitsIn(s, 10))
    case Some(j) => (FormatOf(s[j]), DigitsIn(s[j + 1..], Radix(FormatOf(s[j]))))
  }

  /** The result of `Integer::lex` on lexer `l`: the whole input is consumed, and the
      collected digits in the chosen radix give the value; no digits is an error. The
      span runs from the start position over everything consumed. */
  function LexInteger(l: CharLexer): (r: (Result<Spanned<Integer>, ParseError>, CharLexer))
    ensures r.1.rest == [] && r.1.offset == l.offset + |l.rest|
    ensures r.0.Ok? ==> r.0.value.span.offset == l.offset && r.0.value.span.length == |l.rest|
  {
    var end := Drain(l);
    var (format, digits) := Scan(l.rest);
    var span := Merge(SpanAt(l, 0), SpanAt(end, 0));
    if |digits| > 0 then (Ok(Spanned(Integer(format, ReadRadix(digits, Radix(format))), span)), end)
    else (Err(Msg(span, "integers must contain at least one digit")), end)
  }

  /** What the lexer's variables hold after reading `s[..i]`: before a switch, decimal
      with the decimal digits so far; after the switch at `sw`, the switch's format with
      the digits read since it. */
  ghost predicate LexState(s: seq<char>, i: nat, radixSet: bool, sw: nat, format: IntegerFormat, radix: nat, number: seq<char>)
  {
    && i <= |s|
    && (!radixSet ==>
        && format == Decimal && radix == 10
        && number == DigitsIn(s[..i], 10) && FindSwitch(s, i) == FindSwitch(s, 0))
    && (radixSet ==>
        && sw < i && FindSwitch(s, 0) == Some(sw)
        && format == FormatOf(s[sw]) && radix == Radix(format)
        && number == DigitsIn(s[sw + 1..i], radix))
  }

  /** Reading the `0b` or `0x` marker sets the radix and starts a fresh digit string. */
  lemma SwitchStep(s: seq<char>, i: nat, number: seq<char>)
    requires i < |s| && LexState(s, i, false, 0, Decimal, 10, number)
    requires number == "0" && (s[i] == 'b' || s[i] == 'x')
    ensures LexState(s, i + 1, true, i, FormatOf(s[i]), Radix(FormatOf(s[i])), [])
  {
    DecimalStep(s, i);
    assert s[i + 1..i + 1] == [];
  }

  /** Any other character is appended exactly when it is a digit in the current radix. */
  lemma KeepStep(s: seq<char>, i: nat, radixSet: bool, sw: nat, format: IntegerFormat, radix: nat, number: seq<char>)
    requires i < |s| && LexState(s, i, radixSet, sw, format, radix, number)
    requires !(number == "0" && (s[i] == 'b' || s[i] == 'x') && !radixSet)
    ensures LexState(s, i + 1, radixSet, sw, format, radix, number + (if IsDigit(s[i], radix) then [s[i]] else []))
  {
    if radixSet {
      DigitsInSnoc(s, sw + 1, i, radix);
    } else {
      DecimalStep(s, i);
    }
  }

  /** At the end of the input the variables are what `Scan` describes. */
  lemma LexStateEnd(s: seq<char>, radixSet: bool, sw: nat, format: IntegerFormat, radix: nat, number: seq<char>)
    requires LexState(s, |s|, radixSet, sw, format, radix, number)
    ensures Scan(s) == (format, number) && radix == Radix(format)
  {
    assert radixSet ==> s[sw + 1..|s|] == s[sw + 1..];
    assert s[..|s|] == s;
  }

  /** Once the input is drained and scanned, the result is read off the scan. */
  lemma LexResult(l: CharLexer, cur: CharLexer)
    requires cur.rest == [] && Drain(cur) == Drain(l)
    ensures var (format, digits) := Scan(l.rest);
      var span := Merge(SpanAt(l, 0), SpanAt(cur, 0));
      LexInteger(l) == (if |digits| > 0 then Ok(Spanned(Integer(format, ReadRadix(digits, Radix(format))), span))
                        else Err(Msg(span, "integers must contain at least one digit")), cur)
  {
  }

  /** `Integer::lex`. */
  method Lex(l: CharLexer) returns (r: Result<Spanned<Integer>, ParseError>, l': CharLexer)
    ensures (r, l') == LexInteger(l)
  {
    var span := SpanAt(l, 0);
    var radixSet := false;
    var format := Decimal;
    var radix: nat := 10;
    var number: seq<char> := [];
    var cur := l;
    ghost var s := l.rest;
    ghost var i: nat := 0;
    ghost var sw: nat := 0;
    while true
      invariant i <= |s| && cur.rest == s[i..] && Drain(cur) == Drain(l)
      invariant LexState(s, i, radixSet, sw, format, radix, number)
      decreases |cur.rest|
    {
      var c, next := CharLexing.Next(cur).0, CharLexing.Next(cur).1;
      if c.None? {
        break;
      }
      assert c.value == s[i];
      if number == "0" && (c.value == 'b' || c.value == 'x') && !radixSet {
        SwitchStep(s, i, number);
        radixSet := true;
        number := [];
        format := FormatOf(c.value);
        radix := Radix(format);
        sw := i;
      } else {
        KeepStep(s, i, radixSet, sw, format, radix, number);
        if IsDigit(c.value, radix) {
          number := number + [c.value];
        }
      }
      cur := next;
      i := i + 1;
    }
    LexStateEnd(s, radixSet, sw, format, radix, number);
    LexResult(l, cur);
    var stop := SpanAt(cur, 0);
    if |number| > 0 {
      r := Ok(Spanned(Integer(format, ReadRadix(number, radix)), Merge(span, stop)));
    } else {
      r := Err(Msg(Merge(span, stop), "integers must contain at least one digit"));
    }
    l' := cur;
  }

  /** What the result is made of: success exactly when digits were collected, and then
      the value is their reading in the radix of the format found; otherwise the
      "at least one digit" message. */
  lemma LexIntegerValue(l: CharLexer)
    ensures var (format, digits) := Scan(l.rest);
      && (LexInteger(l).0.Ok? <==> |digits| > 0)
      && (LexInteger(l).0.Ok? ==> LexInteger(l).0.value.value == Integer(format, ReadRadix(digits, Radix(format))))
      && (LexInteger(l).0.Err? ==> LexInteger(l).0.error == Message(LexInteger(l).0.error.span, "integers must contain at least one digit"))
  {
  }

  /** A string of decimal digits scans as itself, in decimal. */
  lemma {:induction false} ScanAllDecimal(s: seq<char>)
    requires forall i :: 0 <= i < |s| ==> IsDigit(s[i], 10)
    ensures Scan(s) == (Decimal, s)
  {
    DigitsInAllDigits(s, 10);
    forall k | 0 <= k < |s|
      ensures s[k] != 'b' && s[k] != 'x'
    {
      assert IsDigit(s[k], 10);
    }
    NoSwitchWithoutMarker(s, 0);
  }

  /** A decimal rendering lexes back to its number. */
  lemma DecimalLexRoundTrip(n: nat, l: CharLexer)
    requires l.rest == Digits.Decimal(n)
    ensures LexInteger(l).0.Ok? && LexInteger(l).0.value.value == Integer(Decimal, n)
  {
    ScanAllDecimal(l.rest);
    DecimalRoundTrip(n);
    LexIntegerValue(l);
  }

  /** In `0x...` the `x` is the switch. */
  lemma SwitchAtOne(s: seq<char>)
    requires |s| >= 2 && s[0] == '0' && s[1] == 'x'
    ensures FindSwitch(s, 0) == Some(1)
  {
    assert s[..1] == "0" && s[..0] == [];
    assert DigitsIn(s[..1], 10) == "0";
    assert !SwitchAt(s, 0) && SwitchAt(s, 1);
  }

  lemma HexScan()
    ensures Scan("0x1f") == (Hex, "1f")
  {
    var s := "0x1f";
    SwitchAtOne(s);
    var ds := s[2..];
    assert ds == "1f" && ds[..1] == "1" && ds[..0] == [];
    assert DigitsIn(ds, 16) == "1f";
  }

  /** `0x1f` is the hexadecimal integer 31. */
  lemma HexExample(l: CharLexer)
    requires l.rest == "0x1f"
    ensures LexInteger(l).0.Ok? && LexInteger(l).0.value.value == Integer(Hex, 31)
  {
    HexScan();
    assert "1f"[..1] == "1" && "1"[..0] == [];
    assert DigitValue('1') == 1 && DigitValue('f') == 15;
    assert ReadRadix("1", 16) == 1;
    assert ReadRadix("1f", 16) == 31;
    LexIntegerValue(l);
  }

  /** `0x` switches to hexadecimal and then finds no digit. */
  lemma EmptyHexExample(l: CharLexer)
    requires l.rest == "0x"
    ensures LexInteger(l).0.Err?
    ensures LexInteger(l).0.error == Message(LexInteger(l).0.error.span, "integers must contain at least one digit")
  {
    SwitchAtOne(l.rest);
    assert l.rest[2..] == [];
    assert Scan(l.rest) == (Hex, []);
    LexIntegerValue(l);
  }

  lemma UnderscoreScan()
    ensures Scan("1_0") == (Decimal, "10")
  {
    var s := "1_0";
    NoSwitchWithoutMarker(s, 0);
    assert s[..2] == "1_" && s[..2][..1] == "1" && s[..2][..1][..0] == [];
    assert DigitsIn(s[..2][..1], 10) == "1";
    assert DigitsIn(s[..2], 10) == "1";
    assert DigitsIn(s, 10) == "10";
  }

  /** Characters that are not digits are skipped: `1_0` is ten. */
  lemma SkipsNonDigits(l: CharLexer)
    requires l.rest == "1_0"
    ensures LexInteger(l).0.Ok? && LexInteger(l).0.value.value == Integer(Decimal, 10)
  {
    UnderscoreScan();
    assert "10"[..1] == "1" && "10"[..1][..0] == [];
    assert ReadRadix("10", 10) == 10;
    LexIntegerValue(l);
  }
}
