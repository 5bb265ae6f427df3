/** `Punctuated`, values separated by punctuation over a token-stream parser,
    src/punctuated.rs. */
module PunctuatedLists {
  import opened Wrappers
  import opened Streams
  import WhitespaceSkipping

  datatype Punctuated<T, P> = Punctuated(values: seq<T>, punctuation: seq<P>)

  /** The `while !parser.is_empty()` loop from state `s` with `acc` collected so far: a
      value, and punctuation only when input remains after it. */
  function PunctLoop<Tok(!new), T, P, E>(value: Rule<Tok, T, E>, punct: Rule<Tok, P, E>,
                                        s: seq<Tok>, acc: Punctuated<T, P>)
    : (r: (Result<Punctuated<T, P>, E>, seq<Tok>))
    requires Consumes(value) && NoGrowth(punct)
    ensures r.0.Ok? ==> r.1 == []
    ensures r.0.Ok? ==> acc.values <= r.0.value.values && acc.punctuation <= r.0.value.punctuation
    ensures r.0.Err? ==> exists x :: value(x) == (Err(r.0.error), r.1) || punct(x) == (Err(r.0.error), r.1)
    decreases |s|
  {
    if s == [] then (Ok(acc), s)
    else
      var (v, s1) := value(s);
      if v.Err? then (Err(v.error), s1)
      else
        var acc1 := Punctuated(acc.values + [v.value], acc.punctuation);
        if s1 == [] then (Ok(acc1), s1)
        else
          var (p, s2) := punct(s1);
          if p.Err? then (Err(p.error), s2)
          else PunctLoop(value, punct, s2, Punctuated(acc1.values, acc1.punctuation + [p.value]))
  }

  /** `Punctuated::parse`. */
  method ParsePunctuated<Tok(!new), T, P, E>(value: Rule<Tok, T, E>, punct: Rule<Tok, P, E>, s: seq<Tok>)
    returns (r: Result<Punctuated<T, P>, E>, s': seq<Tok>)
    requires Consumes(value) && NoGrowth(punct)
    ensures (r, s') == PunctLoop(value, punct, s, Punctuated([], []))
  {
    var values: seq<T> := [];
    var punctuation: seq<P> := [];
    s' := s;
    while s' != []
      invariant PunctLoop(value, punct, s', Punctuated(values, punctuation)) == PunctLoop(value, punct, s, Punctuated([], []))
      decreases |s'|
    {
      var v, s1 := value(s').0, value(s').1;
      if v.Err? {
        return Err(v.error), s1;
      }
      values := values + [v.value];
      s' := s1;
      if s' == [] {
        break;
      }
      var p, s2 := punct(s').0, punct(s').1;
      if p.Err? {
        return Err(p.error), s2;
      }
      punctuation := punctuation + [p.value];
      s' := s2;
    }
    r := Ok(Punctuated(values, punctuation));
  }

  /** Every separator sits between two values or ends the list: there is one per value,
      or one fewer. */
  lemma {:induction false} PunctLoopCounts<Tok(!new), T, P, E>(value: Rule<Tok, T, E>, punct: Rule<Tok, P, E>,
                                                              s: seq<Tok>, acc: Punctuated<T, P>)
    requires Consumes(value) && NoGrowth(punct)
    requires |acc.values| == |acc.punctuation|
    ensures var (r, _) := PunctLoop(value, punct, s, acc);
      r.Ok? ==> |r.value.values| - 1 <= |r.value.punctuation| <= |r.value.values|
    decreases |s|
  {
    if s != [] {
      var (v, s1) := value(s);
      if v.Ok? && s1 != [] {
        var (p, s2) := punct(s1);
        if p.Ok? {
          var acc2 := Punctuated(acc.values + [v.value], acc.punctuation + [p.value]);
          PunctLoopCounts(value, punct, s2, acc2);
        }
      }
    }
  }

  /** Empty input gives no values and no punctuation. */
  lemma PunctuatedEmpty<Tok(!new), T, P, E>(value: Rule<Tok, T, E>, punct: Rule<Tok, P, E>)
    requires Consumes(value) && NoGrowth(punct)
    ensures PunctLoop(value, punct, [], Punctuated([], [])) == (Ok(Punctuated([], [])), [])
  {
  }

  /** A value: any character other than a comma. */
  function Item(s: seq<char>): (Result<char, StreamError<char>>, seq<char>)
  {
    if s == [] then (Err(UnexpectedEof), s)
    else if s[0] == ',' then (Err(Expected(Some(','), [])), s[1..])
    else (Ok(s[0]), s[1..])
  }

  /** The separator: a comma, consumed. */
  function Comma(s: seq<char>): (Result<char, StreamError<char>>, seq<char>)
  {
    if s != [] && s[0] == ',' then (Ok(','), s[1..]) else (Err(Expected(Peek(s), [','])), s)
  }

  lemma ItemRules()
    ensures Consumes(Item) && NoGrowth(Comma)
  {
  }

  /** `a,b,c` is three values and two commas. */
  lemma ThreeValues()
    ensures Consumes(Item) && NoGrowth(Comma)
      && PunctLoop(Item, Comma, "a,b,c", Punctuated([], [])) == (Ok(Punctuated("abc", ",,")), [])
  {
    ItemRules();
    assert Item("a,b,c") == (Ok('a'), ",b,c") && Comma(",b,c") == (Ok(','), "b,c");
    assert Item("b,c") == (Ok('b'), ",c") && Comma(",c") == (Ok(','), "c");
    assert Item("c") == (Ok('c'), []);
    assert [] + ['a'] == "a" && "a" + ['b'] == "ab" && "ab" + ['c'] == "abc";
    assert [] + [','] == "," && "," + [','] == ",,";
    assert PunctLoop(Item, Comma, "a,b,c", Punctuated([], [])) == PunctLoop(Item, Comma, "b,c", Punctuated("a", ","));
    assert PunctLoop(Item, Comma, "b,c", Punctuated("a", ",")) == PunctLoop(Item, Comma, "c", Punctuated("ab", ",,"));
  }

  /** A trailing comma is accepted: `a,b,c,` is three values and three commas. */
  lemma TrailingComma()
    ensures Consumes(Item) && NoGrowth(Comma)
      && PunctLoop(Item, Comma, "a,b,c,", Punctuated([], [])) == (Ok(Punctuated("abc", ",,,")), [])
  {
    ItemRules();
    assert Item("a,b,c,") == (Ok('a'), ",b,c,") && Comma(",b,c,") == (Ok(','), "b,c,");
    assert Item("b,c,") == (Ok('b'), ",c,") && Comma(",c,") == (Ok(','), "c,");
    assert Item("c,") == (Ok('c'), ",") && Comma(",") == (Ok(','), []);
    assert [] + ['a'] == "a" && "a" + ['b'] == "ab" && "ab" + ['c'] == "abc";
    assert [] + [','] == "," && "," + [','] == ",," && ",," + [','] == ",,,";
    assert PunctLoop(Item, Comma, "a,b,c,", Punctuated([], [])) == PunctLoop(Item, Comma, "b,c,", Punctuated("a", ","));
    assert PunctLoop(Item, Comma, "b,c,", Punctuated("a", ",")) == PunctLoop(Item, Comma, "c,", Punctuated("ab", ",,"));
    assert PunctLoop(Item, Comma, "c,", Punctuated("ab", ",,")) == PunctLoop(Item, Comma, [], Punctuated("abc", ",,,"));
  }

  /** `Whitespace` never grows the input. */
  lemma WhitespaceRuleNoGrowth()
    ensures NoGrowth(WhitespaceSkipping.WhitespaceRule<StreamError<char>>)
  {
  }

  /** `SeparateWhitespace`: values separated by `Whitespace`. `a b` is two values and one
      separator. */
  lemma SeparateWhitespaceExample()
    ensures Consumes(Item) && NoGrowth(WhitespaceSkipping.WhitespaceRule<StreamError<char>>)
      && PunctLoop(Item, WhitespaceSkipping.WhitespaceRule, "a b", Punctuated([], [])) == (Ok(Punctuated("ab", [()])), [])
  {
    ItemRules();
    WhitespaceRuleNoGrowth();
    var ws := WhitespaceSkipping.WhitespaceRule<StreamError<char>>;
    assert " b"[1..] == "b";
    WhitespaceSkipping.SkipLeadingNone("b");
    assert ws(" b") == (Ok(()), "b");
    assert Item("a b") == (Ok('a'), " b") && Item("b") == (Ok('b'), []);
    assert [] + ['a'] == "a" && "a" + ['b'] == "ab" && [] + [()] == [()];
    assert PunctLoop(Item, ws, "a b", Punctuated([], [])) == PunctLoop(Item, ws, "b", Punctuated("a", [()]));
  }

  /** `Whitespace` never fails and may match nothing, so adjacent values need no space
      between them: `ab` is also two values and one separator. */
  lemma SeparateWhitespaceAdjacent()
    ensures Consumes(Item) && NoGrowth(WhitespaceSkipping.WhitespaceRule<StreamError<char>>)
      && PunctLoop(Item, WhitespaceSkipping.WhitespaceRule, "ab", Punctuated([], [])) == (Ok(Punctuated("ab", [()])), [])
  {
    ItemRules();
    WhitespaceRuleNoGrowth();
    var ws := WhitespaceSkipping.WhitespaceRule<StreamError<char>>;
    WhitespaceSkipping.SkipLeadingNone("b");
    assert ws("b") == (Ok(()), "b");
    assert Item("ab") == (Ok('a'), "b") && Item("b") == (Ok('b'), []);
    assert [] + ['a'] == "a" && "a" + ['b'] == "ab" && [] + [()] == [()];
    assert PunctLoop(Item, ws, "ab", Punctuated([], [])) == PunctLoop(Item, ws, "b", Punctuated("a", [()]));
  }
}
