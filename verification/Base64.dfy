/** Base64 as section 4 of RFC 4648 defines it, with the padding that the `base64` crate
    leaves optional on the way back and the zero trailing bits that it insists on. */
module Base64 {
  import opened Wrappers
  import opened ByteStrings

  type sextet = n: int | 0 <= n < 64

  function Symbol(v: sextet): (c: char)
    ensures c != '='
  {
    if v < 26 then ('A' as int + v) as char
    else if v < 52 then ('a' as int + v - 26) as char
    else if v < 62 then ('0' as int + v - 52) as char
    else if v == 62 then '+'
    else '/'
  }

  function SymbolValue(c: char): (v: Option<sextet>)
    ensures v.Some? ==> Symbol(v.value) == c
  {
    if 'A' <= c <= 'Z' then Some(c as int - 'A' as int)
    else if 'a' <= c <= 'z' then Some(c as int - 'a' as int + 26)
    else if '0' <= c <= '9' then Some(c as int - '0' as int + 52)
    else if c == '+' then Some(62)
    else if c == '/' then Some(63)
    else None
  }

  lemma SymbolValueOfSymbol(v: sextet)
    ensures SymbolValue(Symbol(v)) == Some(v)
  {
  }

  // The sextets that three bytes are cut into, and the bytes that four sextets make.

  function Sextet0(a: byte): sextet {
    a / 4
  }

  function Sextet1(a: byte, b: byte): sextet {
    a % 4 * 16 + b / 16
  }

  function Sextet2(b: byte, c: byte): sextet {
    b % 16 * 4 + c / 64
  }

  function Sextet3(c: byte): sextet {
    c % 64
  }

  function Byte0(v0: sextet, v1: sextet): byte {
    v0 as int * 4 + v1 / 16
  }

  function Byte1(v1: sextet, v2: sextet): byte {
    v1 as int % 16 * 16 + v2 / 4
  }

  function Byte2(v2: sextet, v3: sextet): byte {
    v2 as int % 4 * 64 + v3
  }

  lemma PackUnpack(a: byte, b: byte, c: byte)
    ensures Byte0(Sextet0(a), Sextet1(a, b)) == a
    ensures Byte1(Sextet1(a, b), Sextet2(b, c)) == b
    ensures Byte2(Sextet2(b, c), Sextet3(c)) == c
    ensures Sextet1(a, 0) % 16 == 0 && Sextet2(b, 0) % 4 == 0
  {
  }

  lemma UnpackPack(v0: sextet, v1: sextet, v2: sextet, v3: sextet)
    ensures Sextet0(Byte0(v0, v1)) == v0
    ensures Sextet1(Byte0(v0, v1), Byte1(v1, v2)) == v1
    ensures Sextet2(Byte1(v1, v2), Byte2(v2, v3)) == v2
    ensures Sextet3(Byte2(v2, v3)) == v3
    ensures v1 % 16 == 0 ==> Sextet1(Byte0(v0, v1), 0) == v1
    ensures v2 % 4 == 0 ==> Sextet2(Byte1(v1, v2), 0) == v2
  {
  }

  function Encode(data: Bytes): (s: string)
    ensures |s| == (|data| + 2) / 3 * 4
  {
    if |data| == 0 then
      ""
    else if |data| == 1 then
      [Symbol(Sextet0(data[0])), Symbol(Sextet1(data[0], 0)), '=', '=']
    else if |data| == 2 then
      [Symbol(Sextet0(data[0])), Symbol(Sextet1(data[0], data[1])), Symbol(Sextet2(data[1], 0)), '=']
    else
      EncodeGroup(data[0], data[1], data[2]) + Encode(data[3..])
  }

  function EncodeGroup(a: byte, b: byte, c: byte): (s: string)
    ensures |s| == 4
  {
    [Symbol(Sextet0(a)), Symbol(Sextet1(a, b)), Symbol(Sextet2(b, c)), Symbol(Sextet3(c))]
  }

  function Decode(s: string): (data: Option<Bytes>)
    ensures data.Some? ==> 4 * |data.value| <= 3 * |s|
  {
    if |s| == 0 then Some([])
    else if |s| <= 4 then DecodeLast(s)
    else
      var group, rest := DecodeGroup(s[..4]), Decode(s[4..]);
      if group.Some? && rest.Some? then Some(group.value + rest.value) else None
  }

  /** A group of four symbols: three bytes. */
  function DecodeGroup(s: string): (data: Option<Bytes>)
    requires |s| == 4
    ensures data.Some? ==> |data.value| == 3
  {
    var v0, v1, v2, v3 := SymbolValue(s[0]), SymbolValue(s[1]), SymbolValue(s[2]), SymbolValue(s[3]);
    if v0.Some? && v1.Some? && v2.Some? && v3.Some? then
      Some([Byte0(v0.value, v1.value), Byte1(v1.value, v2.value), Byte2(v2.value, v3.value)])
    else
      None
  }

  /** The last group: two to four symbols, of which trailing `=` count for nothing, and
      with no bit set beyond the last whole byte. */
  function DecodeLast(s: string): (data: Option<Bytes>)
    requires 1 <= |s| <= 4
    ensures data.Some? ==> 4 * |data.value| <= 3 * |s|
  {
    var symbols :=
      if |s| >= 3 && s[2] == '=' && (|s| == 3 || s[3] == '=') then s[..2]
      else if |s| == 4 && s[3] == '=' then s[..3]
      else s;
    if |symbols| == 4 then DecodeGroup(symbols)
    else if |symbols| == 3 then DecodeThree(symbols)
    else if |symbols| == 2 then DecodeTwo(symbols)
    else None
  }

  function DecodeThree(s: string): (data: Option<Bytes>)
    requires |s| == 3
    ensures data.Some? ==> |data.value| == 2
  {
    var v0, v1, v2 := SymbolValue(s[0]), SymbolValue(s[1]), SymbolValue(s[2]);
    if v0.Some? && v1.Some? && v2.Some? && v2.value % 4 == 0 then
      Some([Byte0(v0.value, v1.value), Byte1(v1.value, v2.value)])
    else
      None
  }

  function DecodeTwo(s: string): (data: Option<Bytes>)
    requires |s| == 2
    ensures data.Some? ==> |data.value| == 1
  {
    var v0, v1 := SymbolValue(s[0]), SymbolValue(s[1]);
    if v0.Some? && v1.Some? && v1.value % 16 == 0 then
      Some([Byte0(v0.value, v1.value)])
    else
      None
  }

  lemma DecodeEncodeGroup(a: byte, b: byte, c: byte)
    ensures SymbolValue(Symbol(Sextet0(a))) == Some(Sextet0(a))
    ensures SymbolValue(Symbol(Sextet1(a, b))) == Some(Sextet1(a, b))
    ensures SymbolValue(Symbol(Sextet2(b, c))) == Some(Sextet2(b, c))
    ensures DecodeGroup(EncodeGroup(a, b, c)) == Some([a, b, c])
  {
    SymbolValueOfSymbol(Sextet0(a));
    SymbolValueOfSymbol(Sextet1(a, b));
    SymbolValueOfSymbol(Sextet2(b, c));
    SymbolValueOfSymbol(Sextet3(c));
    PackUnpack(a, b, c);
  }

  lemma EncodeAppend(group: Bytes, rest: Bytes)
    requires |group| == 3
    ensures Encode(group + rest) == EncodeGroup(group[0], group[1], group[2]) + Encode(rest)
  {
    assert (group + rest)[3..] == rest;
  }

  /** Decoding undoes encoding. */
  lemma {:induction false} DecodeEncode(data: Bytes)
    ensures Decode(Encode(data)) == Some(data)
  {
    hide Symbol, SymbolValue, Sextet0, Sextet1, Sextet2, Sextet3, Byte0, Byte1, Byte2;
    var code := Encode(data);
    if |data| == 1 {
      DecodeEncodeGroup(data[0], 0, 0);
      PackUnpack(data[0], 0, 0);
      assert code[2] == code[3] == '=';
      assert DecodeTwo(code[..2]) == Some([data[0]]) && data == [data[0]];
    } else if |data| == 2 {
      DecodeEncodeGroup(data[0], data[1], 0);
      PackUnpack(data[0], data[1], 0);
      assert code[2] != '=' && code[3] == '=';
      assert DecodeThree(code[..3]) == Some([data[0], data[1]]) && data == [data[0], data[1]];
    } else if |data| >= 3 {
      DecodeEncodeGroup(data[0], data[1], data[2]);
      DecodeEncode(data[3..]);
      assert code[..4] == EncodeGroup(data[0], data[1], data[2]) && code[4..] == Encode(data[3..]);
      assert data == [data[0], data[1], data[2]] + data[3..];
      if |data| == 3 {
        assert DecodeLast(code) == DecodeGroup(code[..4]) && data == [data[0], data[1], data[2]];
      }
    }
  }

  /** Encoding undoes decoding, on the padded texts. */
  lemma {:induction false} EncodeDecode(s: string, data: Bytes)
    requires |s| % 4 == 0 && Decode(s) == Some(data)
    ensures Encode(data) == s
  {
    hide Symbol, SymbolValue, Encode, DecodeGroup, DecodeLast;
    if |s| == 4 {
      EncodeDecodeLast(s, data);
    } else if |s| > 4 {
      var group, rest := DecodeGroup(s[..4]).value, Decode(s[4..]).value;
      EncodeDecodeGroup(s[..4], group);
      EncodeDecode(s[4..], rest);
      EncodeAppend(group, rest);
      assert s == s[..4] + s[4..];
    }
  }

  lemma EncodeDecodeGroup(s: string, data: Bytes)
    requires |s| == 4 && DecodeGroup(s) == Some(data)
    ensures EncodeGroup(data[0], data[1], data[2]) == s
  {
    var v0, v1 := SymbolValue(s[0]).value, SymbolValue(s[1]).value;
    var v2, v3 := SymbolValue(s[2]).value, SymbolValue(s[3]).value;
    UnpackPack(v0, v1, v2, v3);
    assert EncodeGroup(data[0], data[1], data[2]) == [Symbol(v0), Symbol(v1), Symbol(v2), Symbol(v3)];
  }

  lemma EncodeDecodeLast(s: string, data: Bytes)
    requires |s| == 4 && DecodeLast(s) == Some(data)
    ensures Encode(data) == s
  {
    hide Symbol, SymbolValue, Sextet0, Sextet1, Sextet2, Sextet3, Byte0, Byte1, Byte2;
    if s[3] != '=' {
      EncodeDecodeGroup(s, data);
      EncodeAppend(data, []);
      assert data + [] == data;
    } else {
      var v0, v1 := SymbolValue(s[0]).value, SymbolValue(s[1]).value;
      if s[2] == '=' {
        assert data == [Byte0(v0, v1)];
        UnpackPack(v0, v1, 0, 0);
        assert Sextet1(data[0], 0) == v1;
      } else {
        var v2 := SymbolValue(s[2]).value;
        assert data == [Byte0(v0, v1), Byte1(v1, v2)];
        UnpackPack(v0, v1, v2, 0);
        assert Sextet2(data[1], 0) == v2;
      }
    }
  }

  /** When a non-empty encoding starts with a digit. */
  lemma FirstSymbolDigit(data: Bytes)
    requires data != []
    ensures '0' <= Encode(data)[0] <= '9' <==> 208 <= data[0] <= 247
  {
    assert Encode(data)[0] == Symbol(Sextet0(data[0]));
  }
}
