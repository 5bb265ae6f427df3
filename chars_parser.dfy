/** `CharsParser`, a parser over the characters of a string, src/chars_parser.rs. */
module CharsParsing {
  import opened Wrappers
  import opened Streams
  import Buffers

  /** `expect(c)`: one character is consumed whenever there is one, `Ok` exactly when it
      is `c`; the end of input is reported as finding nothing, not as `unexpected_eof`. */
  function CharsExpect<E>(errors: ErrorOps<char, E>, s: seq<char>, c: char): (r: (Result<(), E>, seq<char>))
    ensures r.1 == Next(s).1
    ensures r.0.Ok? <==> s != [] && s[0] == c
    ensures r.0.Err? ==> r.0 == Err(errors.expected(Peek(s), [c]))
  {
    var (found, s') := Next(s);
    if found == Some(c) then (Ok(()), s') else (Err(errors.expected(found, [c])), s')
  }

  class CharsParser {
    var chars: seq<char>

    /** `CharsParser::new`. */
    constructor (chars: seq<char>)
      ensures this.chars == chars
    {
      this.chars := chars;
    }

    method Next<E>() returns (r: Result<Option<char>, E>)
      modifies this
      ensures r.Ok? && (r.value, chars) == Streams.Next(old(chars))
    {
      if chars == [] {
        r := Ok(None);
      } else {
        r := Ok(Some(chars[0]));
        chars := chars[1..];
      }
    }

    method Peek<E>() returns (r: Result<Option<char>, E>)
      ensures r == Ok(Streams.Peek(chars))
    {
      r := Ok(if chars == [] then None else Some(chars[0]));
    }

    method Expect<E>(errors: ErrorOps<char, E>, c: char) returns (r: Result<(), E>)
      modifies this
      ensures (r, chars) == CharsExpect(errors, old(chars), c)
    {
      var found := Next<E>();
      if found.value == Some(c) {
        r := Ok(());
      } else {
        r := Err(errors.expected(found.value, [c]));
      }
    }

    method TryParseWith<X, E>(f: Rule<char, X, E>) returns (r: Result<X, E>)
      modifies this
      ensures (r, chars) == Streams.TryParseWith(f, old(chars))
    {
      var fork := chars;
      var res, fork' := f(fork).0, f(fork).1;
      if res.Ok? {
        chars := fork';
      }
      r := res;
    }
  }

  /** On one `CharsParser`, a `peek` followed by `next` reads the same character, and only
      the `next` advances. */
  method PeekThenNext<E>(p: CharsParser) returns (peeked: Option<char>, taken: Option<char>)
    modifies p
    ensures peeked == taken
    ensures p.chars == Streams.Next(old(p.chars)).1
  {
    var r1 := p.Peek<E>();
    var r2 := p.Next<E>();
    peeked, taken := r1.value, r2.value;
  }

  /** The two `expect`s agree except at the end of input, where the buffer reports
      `unexpected_eof` and the character parser an `expected` with nothing found. */
  lemma ExpectAtEnd<E>(errors: ErrorOps<char, E>, c: char)
    ensures CharsExpect(errors, [], c).0 == Err(errors.expected(None, [c]))
    ensures Buffers.BufferExpect(errors, [], c).0 == Err(errors.unexpectedEof)
    ensures forall s: seq<char> :: s != [] ==> CharsExpect(errors, s, c) == Buffers.BufferExpect(errors, s, c)
  {
  }
}
