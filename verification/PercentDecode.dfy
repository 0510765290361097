/** `percent_decode` (src/config.rs:7-73) on byte strings, one `char` per byte, before the
    final conversion to UTF-8. Escapes are those of section 2.1 of RFC 3986, with `+` for a
    space as in form data. */
module PercentDecode {
  import opened Wrappers
  import opened Sequences

  function HexDigit(c: char): (d: Option<nat>)
    ensures d.Some? ==> d.value < 16
  {
    if '0' <= c <= '9' then Some((c - '0') as int)
    else if 'a' <= c <= 'f' then Some((c - 'a') as int + 10)
    else if 'A' <= c <= 'F' then Some((c - 'A') as int + 10)
    else None
  }

  const LOWER_HEX := "0123456789abcdef"
  const UPPER_HEX := "0123456789ABCDEF"

  /** The digits are those of the two usual alphabets, worth their place in them. */
  lemma HexDigitMeaning(c: char)
    ensures HexDigit(c).Some? <==> c in LOWER_HEX || c in UPPER_HEX
    ensures HexDigit(c).Some? ==> c == LOWER_HEX[HexDigit(c).value] || c == UPPER_HEX[HexDigit(c).value]
  {
    if c in LOWER_HEX {
      var i :| 0 <= i < 16 && LOWER_HEX[i] == c;
    }
    if c in UPPER_HEX {
      var i :| 0 <= i < 16 && UPPER_HEX[i] == c;
    }
  }

  /** How many input bytes the byte at the front takes with it, and what comes out. */
  function Chunk(s: string): (r: (nat, string))
    requires s != []
    ensures 1 <= r.0 <= |s| && |r.1| <= r.0
  {
    if s[0] == '+' then (1, " ")
    else if s[0] != '%' then (1, [s[0]])
    else if |s| > 2 then
      var hi, lo := HexDigit(s[1]), HexDigit(s[2]);
      if hi.Some? && lo.Some? then (3, [(hi.value * 16 + lo.value) as char]) else (3, s[..3])
    else (|s|, s)
  }

  function Decode(s: string): string
    decreases |s|
  {
    if s == [] then [] else Chunk(s).1 + Decode(s[Chunk(s).0..])
  }

  lemma Advance(input: string, at: nat, i: nat, before: string, out: string)
    requires at < i <= |input| && i == at + Chunk(input[at..]).0 && out == before + Chunk(input[at..]).1
    ensures out + Decode(input[i..]) == before + Decode(input[at..])
  {
    assert input[at..][i - at..] == input[i..];
    Regroup(before, Chunk(input[at..]).1, Decode(input[i..]));
  }

  /** The byte loop. */
  method PercentDecode(input: string) returns (out: string)
    ensures out == Decode(input)
    ensures |out| <= |input|
  {
    out := [];
    var i := 0;
    while i < |input|
      invariant 0 <= i <= |input| && |out| <= i
      invariant out + Decode(input[i..]) == Decode(input)
    {
      ghost var before, at := out, i;
      ghost var rest := input[at..];
      if input[i] == '+' {
        out, i := out + [' '], i + 1;
      } else if input[i] == '%' && i + 2 < |input| {
        var hi, lo := HexDigit(input[i + 1]), HexDigit(input[i + 2]);
        if hi.Some? && lo.Some? {
          out := out + [(hi.value * 16 + lo.value) as char];
        } else {
          out := out + ['%', input[i + 1], input[i + 2]];
          assert rest[..3] == ['%', rest[1], rest[2]];
        }
        i := i + 3;
      } else if input[i] == '%' && i + 1 < |input| {
        out := out + ['%', input[i + 1]];
        assert rest == ['%', rest[1]];
        i := i + 2;
      } else if input[i] == '%' {
        out := out + ['%'];
        assert rest == ['%'];
        i := i + 1;
      } else {
        out, i := out + [input[i]], i + 1;
      }
      assert i == at + Chunk(rest).0 && out == before + Chunk(rest).1;
      Advance(input, at, i, before, out);
    }
    assert out + [] == out;
  }

  /** `token` is one way of writing byte `c`: as itself (never `%` or `+`), as `%XY` with hex
      digits of either case, or a space as `+`. */
  predicate Writes(token: string, c: char)
  {
    || (token == [c] && c != '%' && c != '+')
    || (token == "+" && c == ' ')
    || (|token| == 3 && token[0] == '%' && HexDigit(token[1]).Some? && HexDigit(token[2]).Some?
        && c == (HexDigit(token[1]).value * 16 + HexDigit(token[2]).value) as char)
  }

  /** The output of some encoder: a token for each byte of `plain`. */
  predicate WritesAll(tokens: seq<string>, plain: string)
  {
    |tokens| == |plain| && forall i | 0 <= i < |tokens| :: Writes(tokens[i], plain[i])
  }

  function Flat(tokens: seq<string>): string
  {
    if tokens == [] then "" else tokens[0] + Flat(tokens[1..])
  }

  /** Decoding undoes every encoder that escapes `%` and `+`, and what follows a well-formed
      prefix is decoded as if it stood alone. */
  lemma {:induction false} DecodeUndoesEncoders(tokens: seq<string>, plain: string, rest: string)
    requires WritesAll(tokens, plain)
    ensures Decode(Flat(tokens) + rest) == plain + Decode(rest)
  {
    if tokens == [] {
      assert Flat(tokens) + rest == rest && plain + Decode(rest) == Decode(rest);
    } else {
      var tail := Flat(tokens[1..]) + rest;
      assert Flat(tokens) + rest == tokens[0] + tail;
      assert Writes(tokens[0], plain[0]);
      OneToken(tokens[0], plain[0], tail);
      DecodeUndoesEncoders(tokens[1..], plain[1..], rest);
      Regroup([plain[0]], plain[1..], Decode(rest));
      assert plain == [plain[0]] + plain[1..];
    }
  }

  lemma OneToken(token: string, c: char, tail: string)
    requires Writes(token, c)
    ensures Decode(token + tail) == [c] + Decode(tail)
  {
    var all := token + tail;
    assert all[|token|..] == tail;
    assert Chunk(all) == (|token|, [c]);
  }

  /** In particular decoding a whole encoded text gives the text back. */
  lemma DecodeEncoded(tokens: seq<string>, plain: string)
    requires WritesAll(tokens, plain)
    ensures Decode(Flat(tokens)) == plain
  {
    DecodeUndoesEncoders(tokens, plain, "");
    assert Flat(tokens) + "" == Flat(tokens) && plain + "" == plain;
  }

  /** A `%` that does not begin an escape is copied, together with the two bytes behind it or what
      there is of them, unexamined. */
  lemma MalformedCopied(x: char, y: char, rest: string)
    requires HexDigit(x).None? || HexDigit(y).None?
    ensures Decode(['%', x, y] + rest) == ['%', x, y] + Decode(rest)
    ensures Decode(['%', x]) == ['%', x] && Decode("%") == "%"
  {
    var all := ['%', x, y] + rest;
    assert all[..3] == ['%', x, y] && all[3..] == rest;
    assert Chunk(all) == (3, ['%', x, y]);
    assert ['%', x][2..] == [] && "%"[1..] == [];
  }
}
