/** `Delimited`, content between a left and a right delimiter with nesting, src/delimited.rs. */
module Delimiters {
  import opened Wrappers
  import opened Streams

  datatype Delimited<L, T, R> = Delimited(left: L, content: T, right: R)

  /** The `loop` of `Delimited::parse` from state `s`, at nesting depth `count`, with the
      tokens `content` buffered so far. A left delimiter raises the depth; at a positive
      depth a right delimiter lowers it; at depth zero a right delimiter ends the loop.
      Every other token, and every delimiter that does not end the loop, is buffered.
      The two probes never move the parser (`Probe`), so only what the delimiters parse
      at `s` matters. */
  function DelimLoop<Tok, L, R, E>(errors: ErrorOps<Tok, E>, left: Rule<Tok, L, E>, right: Rule<Tok, R, E>,
                                   s: seq<Tok>, count: nat, content: seq<Tok>)
    : (r: (Result<(seq<Tok>, R), E>, seq<Tok>))
    ensures r.0.Err? ==> r == (Err(errors.unexpectedEof), [])
    decreases |s|
  {
    var count := if left(s).0.Ok? then count + 1 else count;
    if count > 0 then
      var count := if right(s).0.Ok? then count - 1 else count;
      Step(errors, left, right, s, count, content)
    else if right(s).0.Ok? then (Ok((content, right(s).0.value)), right(s).1)
    else Step(errors, left, right, s, count, content)
  }

  /** The end of one turn of the loop: `parser.next()?`, buffering the token, or
      `unexpected_eof` when the input is exhausted. */
  function Step<Tok, L, R, E>(errors: ErrorOps<Tok, E>, left: Rule<Tok, L, E>, right: Rule<Tok, R, E>,
                              s: seq<Tok>, count: nat, content: seq<Tok>)
    : (r: (Result<(seq<Tok>, R), E>, seq<Tok>))
    ensures r.0.Err? ==> r == (Err(errors.unexpectedEof), [])
    decreases |s|, 0
  {
    var (tok, s') := Next(s);
    match tok
    case None => (Err(errors.unexpectedEof), s')
    case Some(t) => DelimLoop(errors, left, right, s', count, content + [t])
  }

  /** One turn of the loop, spelled out by the depth after the left probe. */
  lemma LoopTurn<Tok, L, R, E>(errors: ErrorOps<Tok, E>, left: Rule<Tok, L, E>, right: Rule<Tok, R, E>,
                               s: seq<Tok>, count: nat, content: seq<Tok>)
    ensures var c := if left(s).0.Ok? then count + 1 else count;
      var d := if c > 0 && right(s).0.Ok? then c - 1 else c;
      var res := DelimLoop(errors, left, right, s, count, content);
      && (c == 0 && right(s).0.Ok? ==> res == (Ok((content, right(s).0.value)), right(s).1))
      && (!(c == 0 && right(s).0.Ok?) && s == [] ==> res == (Err(errors.unexpectedEof), []))
      && (!(c == 0 && right(s).0.Ok?) && s != [] ==> res == DelimLoop(errors, left, right, s[1..], d, content + [s[0]]))
  {
  }

  /** `Delimited::parse` as a function of the parser's tokens: the left delimiter, the
      loop, then the buffered content parsed as `T`. */
  function ParseSpec<Tok, L, T, R, E>(errors: ErrorOps<Tok, E>, left: Rule<Tok, L, E>, inner: Rule<Tok, T, E>,
                                      right: Rule<Tok, R, E>, s: seq<Tok>)
    : (r: (Result<Delimited<L, T, R>, E>, seq<Tok>))
    ensures left(s).0.Err? ==> r == (Err(left(s).0.error), left(s).1)
    ensures left(s).0.Ok? && DelimLoop(errors, left, right, left(s).1, 0, []).0.Err? ==>
              r == (Err(errors.unexpectedEof), [])
    ensures r.0.Ok? ==> left(s).0.Ok? && r.0.value.left == left(s).0.value
    ensures left(s).0.Ok? && DelimLoop(errors, left, right, left(s).1, 0, []).0.Ok? ==>
              var ((content, close), rest) := (DelimLoop(errors, left, right, left(s).1, 0, []).0.value,
                                               DelimLoop(errors, left, right, left(s).1, 0, []).1);
              && (inner(content).0.Ok? ==> r == (Ok(Delimited(left(s).0.value, inner(content).0.value, close)), rest))
              && (inner(content).0.Err? ==> r == (Err(inner(content).0.error), rest))
  {
    var (l, s1) := left(s);
    if l.Err? then (Err(l.error), s1)
    else
      var (body, s2) := DelimLoop(errors, left, right, s1, 0, []);
      if body.Err? then (Err(body.error), s2)
      else
        var (content, r) := body.value;
        var (t, _) := inner(content);
        if t.Err? then (Err(t.error), s2) else (Ok(Delimited(l.value, t.value, r)), s2)
  }

  /** `Delimited::parse`. */
  method ParseDelimited<Tok, L, T, R, E>(errors: ErrorOps<Tok, E>, left: Rule<Tok, L, E>, inner: Rule<Tok, T, E>,
                                         right: Rule<Tok, R, E>, s: seq<Tok>)
    returns (r: Result<Delimited<L, T, R>, E>, s': seq<Tok>)
    ensures (r, s') == ParseSpec(errors, left, inner, right, s)
  {
    var l := left(s).0;
    s' := left(s).1;
    if l.Err? {
      return Err(l.error), s';
    }
    ghost var start := s';
    var content: seq<Tok> := [];
    var count: nat := 0;
    var close: R;
    while true
      invariant DelimLoop(errors, left, right, s', count, content) == DelimLoop(errors, left, right, start, 0, [])
      decreases |s'|
    {
      LoopTurn(errors, left, right, s', count, content);
      var opens, s1 := Probe(errors, left, s');
      s' := s1;
      if opens {
        count := count + 1;
      }
      if count > 0 {
        var closes, s2 := Probe(errors, right, s');
        s' := s2;
        if closes {
          count := count - 1;
        }
      } else {
        var found, s2 := TryParse(right, s').0, TryParse(right, s').1;
        s' := s2;
        if found.Some? {
          close := found.value;
          break;
        }
      }
      if s' == [] {
        return Err(errors.unexpectedEof), [];
      }
      content := content + [s'[0]];
      s' := s'[1..];
    }
    var t := inner(content).0;
    if t.Err? {
      return Err(t.error), s';
    }
    r := Ok(Delimited(l.value, t.value, close));
  }

  /** The reference reading of single-token delimiters `l` and `r`: the position of the
      `r` that closes depth zero, counting from depth `depth`. */
  function Closing<Tok(==)>(l: Tok, r: Tok, s: seq<Tok>, depth: nat): (i: Option<nat>)
    ensures i.Some? ==> i.value < |s| && s[i.value] == r
    decreases |s|
  {
    if s == [] then None
    else if s[0] == l then Shift(Closing(l, r, s[1..], depth + 1))
    else if s[0] == r then (if depth == 0 then Some(0) else Shift(Closing(l, r, s[1..], depth - 1)))
    else Shift(Closing(l, r, s[1..], depth))
  }

  function Shift(i: Option<nat>): Option<nat>
  {
    if i.Some? then Some(i.value + 1) else None
  }

  /** With distinct single-token delimiters the loop is bracket matching: it ends just
      after the `r` that closes depth zero, having buffered everything before it, and it
      fails with `unexpected_eof` when there is no such `r`. */
  lemma {:induction false} DelimLoopMatches<Tok(!new), E>(errors: ErrorOps<Tok, E>, l: Tok, r: Tok,
                                                         s: seq<Tok>, depth: nat, content: seq<Tok>)
    requires l != r
    ensures var res := DelimLoop(errors, TokenRule(errors, l), TokenRule(errors, r), s, depth, content);
      match Closing(l, r, s, depth)
      case Some(i) => res == (Ok((content + s[..i], r)), s[i + 1..])
      case None => res == (Err(errors.unexpectedEof), [])
    decreases |s|
  {
    var left, right := TokenRule(errors, l), TokenRule(errors, r);
    if s == [] {
      assert !left(s).0.Ok? && !right(s).0.Ok?;
    } else if s[0] == r && depth == 0 {
      assert !left(s).0.Ok? && right(s) == (Ok(r), s[1..]);
      assert content + s[..0] == content;
    } else {
      var t := s[0];
      var depth' := if t == l then depth + 1 else if t == r then depth - 1 else depth;
      assert left(s).0.Ok? <==> t == l;
      assert right(s).0.Ok? <==> t == r;
      assert DelimLoop(errors, left, right, s, depth, content) == Step(errors, left, right, s, depth', content);
      assert Closing(l, r, s, depth) == Shift(Closing(l, r, s[1..], depth'));
      DelimLoopMatches(errors, l, r, s[1..], depth', content + [t]);
      match Closing(l, r, s[1..], depth')
      case Some(i) => SliceStep(content, s, i);
      case None =>
    }
  }

  lemma SliceStep<Tok>(content: seq<Tok>, s: seq<Tok>, i: nat)
    requires i + 1 < |s|
    ensures content + [s[0]] + s[1..][..i] == content + s[..i + 1]
    ensures s[1..][i + 1..] == s[i + 2..]
  {
    assert [s[0]] + s[1..][..i] == s[..i + 1];
  }

  /** With distinct single-token delimiters, `Delimited::parse` on a left delimiter
      followed by `t` is bracket matching: the tokens before the closing `r` are the
      content, parsed by `inner` (its error propagated), and everything after that `r`
      is left; without a closing `r` it fails with `unexpected_eof`. */
  lemma DelimitedMatches<Tok(!new), T, E>(errors: ErrorOps<Tok, E>, l: Tok, r: Tok, inner: Rule<Tok, T, E>, t: seq<Tok>)
    requires l != r
    ensures var res := ParseSpec(errors, TokenRule(errors, l), inner, TokenRule(errors, r), [l] + t);
      match Closing(l, r, t, 0)
      case Some(i) =>
        && (inner(t[..i]).0.Ok? ==> res == (Ok(Delimited(l, inner(t[..i]).0.value, r)), t[i + 1..]))
        && (inner(t[..i]).0.Err? ==> res == (Err(inner(t[..i]).0.error), t[i + 1..]))
      case None => res == (Err(errors.unexpectedEof), [])
  {
    var left := TokenRule(errors, l);
    assert left([l] + t) == (Ok(l), t);
    DelimLoopMatches(errors, l, r, t, 0, []);
    match Closing(l, r, t, 0)
    case Some(i) => assert [] + t[..i] == t[..i];
    case None =>
  }

  /** When the left and right delimiters are the same token, every occurrence of it opens
      and closes at once, so the loop never ends before the input does. */
  lemma {:induction false} SameDelimiterNeverCloses<Tok(!new), E>(errors: ErrorOps<Tok, E>, d: Tok,
                                                                   s: seq<Tok>, content: seq<Tok>)
    ensures DelimLoop(errors, TokenRule(errors, d), TokenRule(errors, d), s, 0, content) == (Err(errors.unexpectedEof), [])
    decreases |s|
  {
    var rule := TokenRule(errors, d);
    if s != [] {
      if s[0] == d {
        assert DelimLoop(errors, rule, rule, s, 0, content) == Step(errors, rule, rule, s, 0, content);
      } else {
        assert DelimLoop(errors, rule, rule, s, 0, content) == Step(errors, rule, rule, s, 0, content);
      }
      SameDelimiterNeverCloses(errors, d, s[1..], content + [s[0]]);
    }
  }

  /** The inner rule that takes every token as the content. */
  function Rest(s: seq<char>): (Result<seq<char>, StreamError<char>>, seq<char>)
  {
    (Ok(s), [])
  }

  /** `{{}}` is a brace, the content `{}` and the closing brace. */
  lemma NestedExample()
    ensures ParseSpec(FreeErrors(), TokenRule(FreeErrors(), '{'), Rest, TokenRule(FreeErrors(), '}'), "{{}}")
            == (Ok(Delimited('{', "{}", '}')), [])
  {
    var brace, close := TokenRule(FreeErrors(), '{'), TokenRule(FreeErrors(), '}');
    assert brace("{{}}") == (Ok('{'), "{}}");
    DelimLoopMatches(FreeErrors(), '{', '}', "{}}", 0, []);
    assert Closing('{', '}', "}", 0) == Some(0);
    assert Closing('{', '}', "}}", 1) == Some(1);
    assert Closing('{', '}', "{}}", 0) == Some(2);
    assert [] + "{}}"[..2] == "{}";
    assert DelimLoop(FreeErrors(), brace, close, "{}}", 0, []) == (Ok(("{}", '}')), []);
  }
}
