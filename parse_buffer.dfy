/** `ParseBuffer`, a parser over a buffer of tokens, src/parse_buffer.rs. */
module Buffers {
  import opened Wrappers
  import opened Streams

  /** `expect(t)` on a buffer: one token is consumed whenever there is one, and the result
      is `Ok` exactly when it is `t`. */
  function BufferExpect<T(==), E>(errors: ErrorOps<T, E>, s: seq<T>, t: T): (r: (Result<(), E>, seq<T>))
    ensures r.1 == Next(s).1
    ensures r.0.Ok? <==> s != [] && s[0] == t
    ensures s == [] ==> r.0 == Err(errors.unexpectedEof)
    ensures s != [] && s[0] != t ==> r.0 == Err(errors.expected(Some(s[0]), [t]))
  {
    var (found, s') := Next(s);
    match found
    case Some(tok) => if tok == t then (Ok(()), s') else (Err(errors.expected(found, [t])), s')
    case None => (Err(errors.unexpectedEof), s')
  }

  class ParseBuffer<T(==)> {
    var tokens: seq<T>

    /** `ParseBuffer::new`. */
    constructor ()
      ensures tokens == []
    {
      tokens := [];
    }

    /** `from_iter`: the tokens in iteration order. */
    constructor FromIter(items: seq<T>)
      ensures tokens == items
    {
      tokens := items;
    }

    method Push(t: T)
      modifies this
      ensures tokens == old(tokens) + [t]
    {
      tokens := tokens + [t];
    }

    method Next() returns (r: Option<T>)
      modifies this
      ensures (r, tokens) == Streams.Next(old(tokens))
    {
      if tokens == [] {
        r := None;
      } else {
        r := Some(tokens[0]);
        tokens := tokens[1..];
      }
    }

    method Peek() returns (r: Option<T>)
      ensures r == Streams.Peek(tokens)
      ensures r.Some? <==> tokens != []
      ensures r.Some? ==> r.value == tokens[0]
    {
      if tokens == [] {
        r := None;
      } else {
        r := Some(tokens[0]);
      }
    }

    method Expect<E>(errors: ErrorOps<T, E>, t: T) returns (r: Result<(), E>)
      modifies this
      ensures (r, tokens) == BufferExpect(errors, old(tokens), t)
    {
      var found := Next();
      if found.Some? {
        if found.value == t {
          r := Ok(());
        } else {
          r := Err(errors.expected(found, [t]));
        }
      } else {
        r := Err(errors.unexpectedEof);
      }
    }

    method TryParseWith<X, E>(f: Rule<T, X, E>) returns (r: Result<X, E>)
      modifies this
      ensures (r, tokens) == Streams.TryParseWith(f, old(tokens))
    {
      var fork := tokens;
      var res, fork' := f(fork).0, f(fork).1;
      if res.Ok? {
        tokens := fork';
      }
      r := res;
    }
  }

  /** The loop of `Parse for ParseBuffer` from state `s`, with the values `acc` parsed so
      far: parse until nothing is left, stopping at the first error. */
  function Collect<T(!new), X, E>(f: Rule<T, X, E>, s: seq<T>, acc: seq<X>): (r: (Result<seq<X>, E>, seq<T>))
    requires Consumes(f)
    ensures r.0.Ok? ==> r.1 == [] && acc <= r.0.value
    ensures r.0.Err? ==> exists x :: f(x) == (Err(r.0.error), r.1)
    decreases |s|
  {
    if Peek(s).None? then (Ok(acc), s)
    else
      var (v, s') := f(s);
      if v.Err? then (Err(v.error), s') else Collect(f, s', acc + [v.value])
  }

  /** `Parse for ParseBuffer`: the parsed values, in order, of a parser read to its end. */
  method ParseBufferOf<T(!new), X, E>(f: Rule<T, X, E>, s: seq<T>) returns (r: Result<seq<X>, E>, s': seq<T>)
    requires Consumes(f)
    ensures (r, s') == Collect(f, s, [])
  {
    var tokens: seq<X> := [];
    s' := s;
    while Peek(s').Some?
      invariant Collect(f, s', tokens) == Collect(f, s, [])
      decreases |s'|
    {
      var v, rest := f(s').0, f(s').1;
      if v.Err? {
        return Err(v.error), rest;
      }
      tokens := tokens + [v.value];
      s' := rest;
    }
    r := Ok(tokens);
  }

  /** The rule reading any one token. */
  function AnyToken<T, E>(errors: ErrorOps<T, E>): (f: Rule<T, T, E>)
  {
    (s: seq<T>) => if s == [] then (Err(errors.unexpectedEof), s) else (Ok(s[0]), s[1..])
  }

  lemma AnyTokenConsumes<T(!new), E>(errors: ErrorOps<T, E>)
    ensures Consumes(AnyToken(errors))
  {
  }

  /** Buffering a buffer token by token gives back the same tokens. */
  lemma {:induction false} CollectTokens<T(!new), E>(errors: ErrorOps<T, E>, s: seq<T>, acc: seq<T>)
    ensures Consumes(AnyToken(errors)) && Collect(AnyToken(errors), s, acc) == (Ok(acc + s), [])
    decreases |s|
  {
    AnyTokenConsumes(errors);
    if s == [] {
      assert acc + s == acc;
    } else {
      CollectTokens(errors, s[1..], acc + [s[0]]);
      assert acc + [s[0]] + s[1..] == acc + s;
    }
  }
}
