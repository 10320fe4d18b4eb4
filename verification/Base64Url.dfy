// The URL-safe base64 alphabet without padding, of section 5 of RFC 4648, as page tokens use it: the decoder refuses
// left-over bits that are not zero.

module Base64Url {
  import opened Numbers

  type byte = x: int | 0 <= x < 256

  type sextet = x: int | 0 <= x < 64

  function Symbol(v: sextet): char {
    if v < 26 then ('A' as int + v) as char
    else if v < 52 then ('a' as int + v - 26) as char
    else if v < 62 then ('0' as int + v - 52) as char
    else if v == 62 then '-' else '_'
  }

  function Value(c: char): Option<sextet> {
    if 'A' <= c <= 'Z' then Some(c as int - 'A' as int)
    else if 'a' <= c <= 'z' then Some(c as int - 'a' as int + 26)
    else if '0' <= c <= '9' then Some(c as int - '0' as int + 52)
    else if c == '-' then Some(62) else if c == '_' then Some(63) else None
  }

  // Each symbol has one value, and no other character has any.
  lemma SymbolsExactly(c: char, v: sextet)
    ensures Value(c) == Some(v) <==> c == Symbol(v)
  {
  }

  function Text(s: seq<sextet>): string {
    seq(|s|, i requires 0 <= i < |s| => Symbol(s[i]))
  }

  function Values(text: string): Option<seq<sextet>> {
    if text == "" then Some([])
    else
      var v, rest := Value(text[0]), Values(text[1..]);
      if v.None? || rest.None? then None else Some([v.value] + rest.value)
  }

  lemma {:induction false} ValuesExactly(text: string, s: seq<sextet>)
    ensures Values(text) == Some(s) <==> text == Text(s)
  {
    if text == "" {
      assert Text([]) == "";
    } else if s != [] {
      SymbolsExactly(text[0], s[0]);
      ValuesExactly(text[1..], s[1..]);
      assert Text(s) == [Symbol(s[0])] + Text(s[1..]);
      assert text == [text[0]] + text[1..] && s == [s[0]] + s[1..];
    }
  }

  // Three bytes as four sextets; one or two bytes left over as two or three, filled up with zero bits.
  function Sextets(bytes: seq<byte>): seq<sextet> {
    if |bytes| == 0 then []
    else if |bytes| == 1 then [bytes[0] / 4, bytes[0] % 4 * 16]
    else if |bytes| == 2 then [bytes[0] / 4, bytes[0] % 4 * 16 + bytes[1] / 16, bytes[1] % 16 * 4]
    else Group(bytes[0], bytes[1], bytes[2]) + Sextets(bytes[3..])
  }

  function Group(a: byte, b: byte, c: byte): seq<sextet> {
    [a / 4, a % 4 * 16 + b / 16, b % 16 * 4 + c / 64, c % 64]
  }

  function First(w: sextet, x: sextet): byte {
    (w as int) * 4 + x / 16
  }

  function Second(x: sextet, y: sextet): byte {
    x as int % 16 * 16 + y / 4
  }

  function Ungroup(w: sextet, x: sextet, y: sextet, z: sextet): seq<byte> {
    [First(w, x), Second(x, y), y as int % 4 * 64 + z]
  }

  function Bytes(s: seq<sextet>): Option<seq<byte>> {
    if |s| == 0 then Some([])
    else if |s| == 1 then None
    else if |s| == 2 then if s[1] % 16 == 0 then Some([First(s[0], s[1])]) else None
    else if |s| == 3 then if s[2] % 4 == 0 then Some([First(s[0], s[1]), Second(s[1], s[2])]) else None
    else
      var rest := Bytes(s[4..]);
      if rest.None? then None else Some(Ungroup(s[0], s[1], s[2], s[3]) + rest.value)
  }

  lemma Join4(p: nat, q: nat)
    requires q < 4
    ensures (p * 4 + q) / 4 == p && (p * 4 + q) % 4 == q
  {
  }

  lemma Join16(p: nat, q: nat)
    requires q < 16
    ensures (p * 16 + q) / 16 == p && (p * 16 + q) % 16 == q
  {
  }

  lemma Join64(p: nat, q: nat)
    requires q < 64
    ensures (p * 64 + q) / 64 == p && (p * 64 + q) % 64 == q
  {
  }

  lemma GroupUndone(a: byte, b: byte, c: byte)
    ensures Ungroup(Group(a, b, c)[0], Group(a, b, c)[1], Group(a, b, c)[2], Group(a, b, c)[3]) == [a, b, c]
  {
    Join16(a % 4, b / 16);
    Join4(b % 16, c / 64);
    var g := Group(a, b, c);
    assert First(g[0], g[1]) == a && Second(g[1], g[2]) == b && g[2] as int % 4 * 64 + g[3] == c;
  }

  lemma UngroupUndone(w: sextet, x: sextet, y: sextet, z: sextet)
    ensures Group(Ungroup(w, x, y, z)[0], Ungroup(w, x, y, z)[1], Ungroup(w, x, y, z)[2]) == [w, x, y, z]
  {
    Join4(w, x / 16);
    Join16(x % 16, y / 4);
    Join64(y % 4, z);
    var u := Ungroup(w, x, y, z);
    assert u[0] / 4 == w && u[0] % 4 == x / 16 && u[1] / 16 == x % 16 && u[1] % 16 == y / 4 && u[2] / 64 == y % 4 && u[2] % 64 == z;
  }

  lemma {:induction false} SextetsUndo(bytes: seq<byte>)
    ensures Bytes(Sextets(bytes)) == Some(bytes)
  {
    if |bytes| >= 3 {
      var g := Group(bytes[0], bytes[1], bytes[2]);
      SextetsUndo(bytes[3..]);
      GroupUndone(bytes[0], bytes[1], bytes[2]);
      assert Sextets(bytes)[4..] == Sextets(bytes[3..]);
      assert bytes == [bytes[0], bytes[1], bytes[2]] + bytes[3..];
    } else if |bytes| == 2 {
      GroupUndone(bytes[0], bytes[1], 0);
      assert bytes == [bytes[0], bytes[1]];
    } else if |bytes| == 1 {
      GroupUndone(bytes[0], 0, 0);
      assert bytes == [bytes[0]];
    }
  }

  lemma {:induction false} BytesUndo(s: seq<sextet>)
    ensures Bytes(s).Some? ==> Sextets(Bytes(s).value) == s
  {
    if |s| >= 4 {
      BytesUndo(s[4..]);
      if Bytes(s).Some? {
        var u := Ungroup(s[0], s[1], s[2], s[3]);
        UngroupUndone(s[0], s[1], s[2], s[3]);
        assert Bytes(s).value[3..] == Bytes(s[4..]).value;
        assert s == [s[0], s[1], s[2], s[3]] + s[4..];
      }
    } else if |s| == 3 {
      UngroupUndone(s[0], s[1], s[2], 0);
      assert s == [s[0], s[1], s[2]];
    } else if |s| == 2 {
      UngroupUndone(s[0], s[1], 0, 0);
      assert s == [s[0], s[1]];
    }
  }

  function Encode(bytes: seq<byte>): string {
    Text(Sextets(bytes))
  }

  function Decode(text: string): Option<seq<byte>> {
    var s := Values(text);
    if s.None? then None else Bytes(s.value)
  }

  // Decoding gives some bytes back exactly for the one text that encodes them.
  lemma DecodesExactly(text: string, bytes: seq<byte>)
    ensures Decode(text) == Some(bytes) <==> text == Encode(bytes)
  {
    SextetsUndo(bytes);
    ValuesExactly(text, Sextets(bytes));
    if Values(text).Some? {
      BytesUndo(Values(text).value);
    }
  }

  function EncodedLength(n: nat): nat {
    n / 3 * 4 + if n % 3 == 0 then 0 else n % 3 + 1
  }

  lemma {:induction false} LengthOfEncode(bytes: seq<byte>)
    ensures |Encode(bytes)| == EncodedLength(|bytes|)
  {
    if |bytes| >= 3 {
      LengthOfEncode(bytes[3..]);
    }
  }
}
