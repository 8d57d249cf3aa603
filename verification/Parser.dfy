/** Big-endian field parsing and unparsing (libsponge/util/parser.cc). */
module Parsers {
  import opened ByteStreams

  datatype ParseResult =
    | NoError | BadChecksum | PacketTooShort | WrongIPVersion | HeaderTooShort | TruncatedPacket | Unsupported

  /** What is left to parse, and the first error met. */
  datatype Parser = Parser(buffer: seq<Byte>, err: ParseResult)

  datatype Taken = Taken(value: nat, parser: Parser)

  function Pow256(n: nat): nat {
    if n == 0 then 1 else 256 * Pow256(n - 1)
  }

  /** The number that bytes stand for, most significant first. */
  function Number(bytes: seq<Byte>): nat {
    if bytes == [] then 0 else 256 * Number(bytes[..|bytes| - 1]) + bytes[|bytes| - 1]
  }

  /** `len` bytes of a number, most significant first. */
  function Digits(len: nat, val: nat): (bytes: seq<Byte>)
    ensures |bytes| == len
  {
    if len == 0 then [] else Digits(len - 1, val / 256) + [val % 256]
  }

  function CheckSize(p: Parser, size: nat): Parser {
    if size > |p.buffer| then p.(err := PacketTooShort) else p
  }

  function TakeInt(p: Parser, len: nat): Taken {
    var p1 := CheckSize(p, len);
    if p1.err != NoError then Taken(0, p1)
    else Taken(Number(p1.buffer[..len]), p1.(buffer := p1.buffer[len..]))
  }

  function RemovePrefix(p: Parser, n: nat): Parser {
    var p1 := CheckSize(p, n);
    if p1.err != NoError then p1 else p1.(buffer := p1.buffer[n..])
  }

  /** Consecutive integers of the given widths. */
  datatype TakenAll = TakenAll(values: seq<nat>, parser: Parser)

  function TakeAll(p: Parser, widths: seq<nat>): (r: TakenAll)
    ensures |r.values| == |widths|
    decreases |widths|
  {
    if widths == [] then TakenAll([], p)
    else
      var t := TakeInt(p, widths[0]);
      var rest := TakeAll(t.parser, widths[1..]);
      TakenAll([t.value] + rest.values, rest.parser)
  }

  lemma TakeAllStep(p: Parser, widths: seq<nat>)
    requires widths != []
    ensures var t := TakeInt(p, widths[0]);
            var rest := TakeAll(t.parser, widths[1..]);
            TakeAll(p, widths) == TakenAll([t.value] + rest.values, rest.parser)
  {
  }

  lemma TakeAllNone(p: Parser, widths: seq<nat>)
    requires widths == []
    ensures TakeAll(p, widths) == TakenAll([], p)
  {
  }

  function Total(widths: seq<nat>): nat {
    if widths == [] then 0 else widths[0] + Total(widths[1..])
  }

  /** Fields written one after another. */
  function Encode(widths: seq<nat>, values: seq<nat>): (bytes: seq<Byte>)
    requires |widths| == |values|
    ensures |bytes| == Total(widths)
  {
    if widths == [] then [] else Digits(widths[0], values[0]) + Encode(widths[1..], values[1..])
  }

  lemma {:induction false} TotalConcat(a: seq<nat>, b: seq<nat>)
    ensures Total(a + b) == Total(a) + Total(b)
  {
    if a == [] {
      assert a + b == b;
    } else {
      assert (a + b)[1..] == a[1..] + b;
      TotalConcat(a[1..], b);
    }
  }

  lemma TotalPair(a: nat, b: nat)
    ensures Total([a]) == a && Total([b]) == b && Total([a, b]) == a + b
  {
    assert [a, b][1..] == [b] && [a][1..] == [] && [b][1..] == [];
  }

  ghost predicate Fit(widths: seq<nat>, values: seq<nat>) {
    |widths| == |values| && forall k :: 0 <= k < |values| ==> values[k] < Pow256(widths[k])
  }

  // ---- Inversion ----

  lemma {:induction false} NumberOfDigits(len: nat, val: nat)
    requires val < Pow256(len)
    ensures Number(Digits(len, val)) == val
  {
    if len == 0 {
    } else {
      NumberOfDigits(len - 1, val / 256);
      var d := Digits(len, val);
      assert d[..|d| - 1] == Digits(len - 1, val / 256);
    }
  }

  /** Taking an integer off the front gives back what was written, and the rest untouched. */
  lemma TakeWritten(len: nat, val: nat, rest: seq<Byte>)
    requires val < Pow256(len)
    ensures TakeInt(Parser(Digits(len, val) + rest, NoError), len) == Taken(val, Parser(rest, NoError))
  {
    NumberOfDigits(len, val);
    var b := Digits(len, val) + rest;
    assert b[..len] == Digits(len, val) && b[len..] == rest;
  }

  /** Parsing the fields of an encoding gives back the values, with the rest left in the parser. */
  lemma {:induction false} TakeEncoded(widths: seq<nat>, values: seq<nat>, rest: seq<Byte>)
    requires Fit(widths, values)
    ensures TakeAll(Parser(Encode(widths, values) + rest, NoError), widths) == TakenAll(values, Parser(rest, NoError))
    decreases |widths|
  {
    hide TakeInt, Digits, Pow256;
    if widths == [] {
      assert Encode(widths, values) + rest == rest;
    } else {
      var tail := Encode(widths[1..], values[1..]);
      TakeWritten(widths[0], values[0], tail + rest);
      TakeEncoded(widths[1..], values[1..], rest);
      assert Encode(widths, values) + rest == Digits(widths[0], values[0]) + (tail + rest);
    }
  }

  /** Parsing fields succeeds exactly when there are enough bytes. */
  lemma {:induction false} TakeAllIff(p: Parser, widths: seq<nat>)
    requires p.err == NoError
    ensures var r := TakeAll(p, widths).parser;
            if Total(widths) <= |p.buffer| then r == Parser(p.buffer[Total(widths)..], NoError)
            else r.err == PacketTooShort
    decreases |widths|
  {
    if widths == [] {
      assert p.buffer[0..] == p.buffer;
    } else if widths[0] <= |p.buffer| {
      var p1 := TakeInt(p, widths[0]).parser;
      TakeAllIff(p1, widths[1..]);
      if Total(widths) <= |p.buffer| {
        assert p.buffer[widths[0]..][Total(widths[1..])..] == p.buffer[Total(widths)..];
      }
    } else {
      StaysShort(TakeInt(p, widths[0]).parser, widths[1..]);
    }
  }

  /** Each field is the number its own bytes stand for, wherever it lies in the buffer. */
  lemma {:induction false} FieldIs(p: Parser, widths: seq<nat>, k: nat, at: nat)
    requires p.err == NoError && Total(widths) <= |p.buffer| && k < |widths| && at == Total(widths[..k])
    ensures at + widths[k] <= |p.buffer|
    ensures TakeAll(p, widths).values[k] == Number(p.buffer[at..at + widths[k]])
    decreases k
  {
    hide Number, TakeAll;
    TakeAllStep(p, widths);
    if k == 0 {
      assert p.buffer[..widths[0]] == p.buffer[at..at + widths[0]];
    } else {
      var p1 := TakeInt(p, widths[0]).parser;
      assert widths[1..][..k - 1] == widths[..k][1..];
      FieldIs(p1, widths[1..], k - 1, at - widths[0]);
      assert p1.buffer[at - widths[0]..at - widths[0] + widths[k]] == p.buffer[at..at + widths[k]];
    }
  }

  lemma SmallNumbers(a: Byte, b: Byte)
    ensures Number([a]) == a && Number([a, b]) == Word(a, b)
  {
    assert [a][..0] == [] && [a, b][..1] == [a];
  }

  lemma LargeNumber(a: Byte, b: Byte, c: Byte, d: Byte)
    ensures Number([a, b, c, d]) == Quad(a, b, c, d)
  {
    SmallNumbers(a, b);
    assert [a, b, c, d][..3] == [a, b, c] && [a, b, c][..2] == [a, b];
    assert Number([a, b, c]) == 256 * Number([a, b]) + c;
  }

  /** Where the next field starts. */
  lemma TotalNext(widths: seq<nat>, k: nat)
    requires k < |widths|
    ensures Total(widths[..k + 1]) == Total(widths[..k]) + widths[k]
  {
    assert widths[..k + 1] == widths[..k] + [widths[k]];
    TotalConcat(widths[..k], [widths[k]]);
    TotalPair(widths[k], 0);
  }

  /** Fields of one, two and four bytes at a known place. */
  lemma ByteField(p: Parser, widths: seq<nat>, k: nat, at: nat)
    requires p.err == NoError && Total(widths) <= |p.buffer| && k < |widths| && at == Total(widths[..k])
    requires widths[k] == 1
    ensures at + 1 <= |p.buffer| && TakeAll(p, widths).values[k] == p.buffer[at]
  {
    hide TakeAll, Total, Number;
    FieldIs(p, widths, k, at);
    assert p.buffer[at..at + 1] == [p.buffer[at]];
    SmallNumbers(p.buffer[at], 0);
  }

  lemma WordField(p: Parser, widths: seq<nat>, k: nat, at: nat)
    requires p.err == NoError && Total(widths) <= |p.buffer| && k < |widths| && at == Total(widths[..k])
    requires widths[k] == 2
    ensures at + 2 <= |p.buffer| && TakeAll(p, widths).values[k] == Word(p.buffer[at], p.buffer[at + 1])
  {
    hide TakeAll, Total, Number;
    FieldIs(p, widths, k, at);
    assert p.buffer[at..at + 2] == [p.buffer[at], p.buffer[at + 1]];
    SmallNumbers(p.buffer[at], p.buffer[at + 1]);
  }

  lemma QuadField(p: Parser, widths: seq<nat>, k: nat, at: nat)
    requires p.err == NoError && Total(widths) <= |p.buffer| && k < |widths| && at == Total(widths[..k])
    requires widths[k] == 4
    ensures at + 4 <= |p.buffer|
    ensures var b := p.buffer; TakeAll(p, widths).values[k] == Quad(b[at], b[at + 1], b[at + 2], b[at + 3])
  {
    hide TakeAll, Total, Number;
    FieldIs(p, widths, k, at);
    var b := p.buffer;
    assert b[at..at + 4] == [b[at], b[at + 1], b[at + 2], b[at + 3]];
    LargeNumber(b[at], b[at + 1], b[at + 2], b[at + 3]);
  }

  lemma {:induction false} NumberBound(bytes: seq<Byte>)
    ensures Number(bytes) < Pow256(|bytes|)
  {
    if bytes == [] {
    } else {
      NumberBound(bytes[..|bytes| - 1]);
    }
  }

  /** Whatever is parsed fits the width it was parsed from. */
  lemma {:induction false} TakeAllFit(p: Parser, widths: seq<nat>)
    ensures Fit(widths, TakeAll(p, widths).values)
    decreases |widths|
  {
    if widths == [] {
    } else {
      var t := TakeInt(p, widths[0]);
      TakeAllFit(t.parser, widths[1..]);
      Pow256Positive(widths[0]);
      if CheckSize(p, widths[0]).err == NoError {
        NumberBound(p.buffer[..widths[0]]);
      }
    }
  }

  lemma Pow256Positive(n: nat)
    ensures Pow256(n) > 0
  {
  }

  /** Writing out the number that bytes stand for gives the bytes back. */
  lemma {:induction false} DigitsOfNumber(bytes: seq<Byte>)
    ensures Digits(|bytes|, Number(bytes)) == bytes
  {
    if bytes == [] {
    } else {
      DigitsOfNumber(bytes[..|bytes| - 1]);
    }
  }

  /** Encoding what was parsed gives back the bytes it was parsed from. */
  lemma {:induction false} EncodeTaken(p: Parser, widths: seq<nat>)
    requires p.err == NoError && Total(widths) <= |p.buffer|
    ensures Encode(widths, TakeAll(p, widths).values) == p.buffer[..Total(widths)]
    decreases |widths|
  {
    hide Number, Digits, TakeAll;
    if widths == [] {
    } else {
      var t := TakeInt(p, widths[0]);
      TakeAllStep(p, widths);
      DigitsOfNumber(p.buffer[..widths[0]]);
      EncodeTaken(t.parser, widths[1..]);
      assert p.buffer[..Total(widths)] == p.buffer[..widths[0]] + p.buffer[widths[0]..][..Total(widths[1..])];
    }
  }

  /** Values that fit their widths are told apart by their encodings. */
  lemma EncodeInjective(widths: seq<nat>, v: seq<nat>, w: seq<nat>)
    requires Fit(widths, v) && Fit(widths, w)
    ensures Encode(widths, v) == Encode(widths, w) <==> v == w
  {
    hide Encode, TakeAll, Pow256;
    TakeEncoded(widths, v, []);
    TakeEncoded(widths, w, []);
  }

  /** An error, once met, stays. */
  lemma {:induction false} StaysShort(p: Parser, widths: seq<nat>)
    requires p.err == PacketTooShort
    ensures TakeAll(p, widths).parser.err == PacketTooShort
    decreases |widths|
  {
    if widths == [] {
    } else {
      StaysShort(TakeInt(p, widths[0]).parser, widths[1..]);
    }
  }

  class NetParser {
    var buffer: seq<Byte>
    var err: ParseResult

    ghost function Model(): Parser
      reads this
    {
      Parser(buffer, err)
    }

    constructor (buffer: seq<Byte>)
      ensures Model() == Parser(buffer, NoError)
    {
      this.buffer, err := buffer, NoError;
    }

    method CheckRoom(size: nat)
      modifies this`err
      ensures Model() == CheckSize(old(Model()), size)
    {
      if size > |buffer| {
        err := PacketTooShort;
      }
    }

    method ParseInt(len: nat) returns (val: nat)
      modifies this
      ensures Taken(val, Model()) == TakeInt(old(Model()), len)
    {
      CheckRoom(len);
      if err != NoError {
        return 0;
      }
      val := 0;
      for i := 0 to len
        invariant val == Number(buffer[..i])
      {
        assert buffer[..i + 1][..i] == buffer[..i];
        val := val * 256 + buffer[i];
      }
      buffer := buffer[len..];
    }

    method Skip(n: nat)
      modifies this
      ensures Model() == RemovePrefix(old(Model()), n)
    {
      CheckRoom(n);
      if err != NoError {
        return;
      }
      buffer := buffer[n..];
    }

    /** Reads integers of the given widths one after another. */
    method ParseInts(widths: seq<nat>) returns (values: seq<nat>)
      modifies this
      ensures TakenAll(values, Model()) == TakeAll(old(Model()), widths)
    {
      hide TakeInt, TakeAll;
      values := [];
      ghost var p := Model();
      assert widths[0..] == widths;
      for i := 0 to |widths|
        invariant |values| == i
        invariant TakeAll(p, widths) ==
                  TakenAll(values + TakeAll(Model(), widths[i..]).values, TakeAll(Model(), widths[i..]).parser)
      {
        assert widths[i..][1..] == widths[i + 1..];
        TakeAllStep(Model(), widths[i..]);
        var v := ParseInt(widths[i]);
        ghost var before, rest := values, TakeAll(Model(), widths[i + 1..]).values;
        values := values + [v];
        assert before + ([v] + rest) == values + rest;
      }
      TakeAllNone(Model(), widths[|widths|..]);
    }
  }

  /** Appends the bytes of an integer of one, two or four bytes, shifting each into place. */
  method UnparseInt(s: seq<Byte>, len: nat, val: nat) returns (r: seq<Byte>)
    requires len <= 4
    ensures r == s + Digits(len, val)
  {
    r := s;
    for i := 0 to len
      invariant r == s + Digits(len, val)[..i]
    {
      DigitAt(len, val, i);
      r := r + [val / Pow256(len - i - 1) % 256];
    }
  }

  /** Appends fields one after another. */
  method UnparseInts(s: seq<Byte>, widths: seq<nat>, values: seq<nat>) returns (r: seq<Byte>)
    requires |widths| == |values| && forall k :: 0 <= k < |widths| ==> widths[k] <= 4
    ensures r == s + Encode(widths, values)
  {
    hide Digits;
    r := s;
    for i := 0 to |widths|
      invariant r + Encode(widths[i..], values[i..]) == s + Encode(widths, values)
    {
      assert widths[i..][1..] == widths[i + 1..] && values[i..][1..] == values[i + 1..];
      ghost var before := r;
      r := UnparseInt(r, widths[i], values[i]);
      assert r + Encode(widths[i + 1..], values[i + 1..]) == before + Encode(widths[i..], values[i..]);
    }
  }

  lemma {:induction false} DigitAt(len: nat, val: nat, i: nat)
    requires i < len <= 4
    ensures Pow256(len - i - 1) > 0 && Digits(len, val)[i] == val / Pow256(len - i - 1) % 256
  {
    Pow256Table();
    if i < len - 1 {
      DigitAt(len - 1, val / 256, i);
      DivTwice(val, len - i - 2);
    }
  }

  lemma Pow256Table()
    ensures Pow256(0) == 1 && Pow256(1) == 0x100 && Pow256(2) == 0x1_0000 && Pow256(3) == 0x100_0000
    ensures Pow256(4) == 0x1_0000_0000
  {
    assert Pow256(4) == 256 * Pow256(3);
  }

  lemma DivTwice(x: nat, n: nat)
    requires n < 3
    ensures Pow256(n) > 0 && Pow256(n + 1) > 0 && x / Pow256(n + 1) == x / 256 / Pow256(n)
  {
    Pow256Table();
    assert x / 256 / 256 == x / 0x1_0000 && x / 256 / 0x1_0000 == x / 0x100_0000;
  }
}
