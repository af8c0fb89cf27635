/** Decoding bytes as UTF-8 with errors='ignore': a byte at which no well-formed sequence
    starts is skipped. Well-formedness is table 3-7 of the Unicode Standard. */
module Utf8 {

  type Byte = b: int | 0 <= b < 256

  predicate Continuation(b: Byte)
  {
    0x80 <= b < 0xC0
  }

  /** The length of the well-formed sequence at the start of b, or 0 if there is none. */
  function SequenceLength(b: seq<Byte>): (n: nat)
    ensures n <= 4 && n <= |b|
    ensures forall i :: 1 <= i < n ==> Continuation(b[i])
    ensures n > 1 ==> b[0] >= 0xC2
  {
    if |b| >= 1 && b[0] < 0x80 then 1
    else if |b| >= 2 && 0xC2 <= b[0] < 0xE0 && Continuation(b[1]) then 2
    else if |b| >= 3 && 0xE0 <= b[0] < 0xF0 && Continuation(b[1]) && Continuation(b[2])
         && (b[0] == 0xE0 ==> b[1] >= 0xA0) && (b[0] == 0xED ==> b[1] < 0xA0) then 3
    else if |b| >= 4 && 0xF0 <= b[0] < 0xF5 && Continuation(b[1]) && Continuation(b[2]) && Continuation(b[3])
         && (b[0] == 0xF0 ==> b[1] >= 0x90) && (b[0] == 0xF4 ==> b[1] < 0x90) then 4
    else 0
  }

  /** The six payload bits of a continuation byte. */
  function Payload(b: Byte): (p: int)
    requires Continuation(b)
    ensures 0 <= p < 64
    ensures (b >= 0x90 <==> p >= 0x10) && (b >= 0xA0 <==> p >= 0x20)
  {
    var v: int := b;
    v - 0x80
  }

  function ScalarValue(b: seq<Byte>): char
    requires SequenceLength(b) > 0
  {
    var n := SequenceLength(b);
    var first: int := b[0];
    if n == 1 then first as char
    else if n == 2 then ((first - 0xC0) * 64 + Payload(b[1])) as char
    else if n == 3 then ((first - 0xE0) * 4096 + Payload(b[1]) * 64 + Payload(b[2])) as char
    else ((first - 0xF0) * 262144 + Payload(b[1]) * 4096 + Payload(b[2]) * 64 + Payload(b[3])) as char
  }

  function Decode(b: seq<Byte>): string
    decreases |b|
  {
    if b == [] then ""
    else
      var n := SequenceLength(b);
      if n == 0 then Decode(b[1..]) else [ScalarValue(b)] + Decode(b[n..])
  }

  /** Some character of a + b has bytes on both sides of the cut. */
  predicate Straddles(a: seq<Byte>, b: seq<Byte>)
    decreases |a|
  {
    if a == [] then false
    else
      var n := SequenceLength(a + b);
      if n > |a| then true
      else if n == 0 then Straddles(a[1..], b)
      else Straddles(a[n..], b)
  }

  lemma SequenceOfPrefix(a: seq<Byte>, b: seq<Byte>)
    ensures var n := SequenceLength(a + b);
            SequenceLength(a) == if n <= |a| then n else 0
    ensures SequenceLength(a) > 0 ==> ScalarValue(a + b) == ScalarValue(a)
  {
  }

  /** Continuation bytes alone decode to nothing. */
  lemma {:induction false} SkipContinuations(c: seq<Byte>, rest: seq<Byte>)
    requires forall i :: 0 <= i < |c| ==> Continuation(c[i])
    ensures Decode(c + rest) == Decode(rest)
  {
    if c == [] {
      assert c + rest == rest;
    } else {
      assert (c + rest)[0] == c[0];
      assert (c + rest)[1..] == c[1..] + rest;
      SkipContinuations(c[1..], rest);
    }
  }

  /** A character cut in two is lost: each side skips its share of the bytes. */
  lemma CutCharacter(a: seq<Byte>, b: seq<Byte>)
    requires a != [] && SequenceLength(a + b) > |a|
    ensures var n := SequenceLength(a + b);
            Decode(a + b) == [ScalarValue(a + b)] + Decode(b) && Decode(a) == ""
  {
    var s, n := a + b, SequenceLength(a + b);
    hide SequenceLength, ScalarValue;
    CutLeft(a, b);
    var c, rest := b[..n - |a|], b[n - |a|..];
    forall i | 0 <= i < |c| ensures Continuation(c[i]) {
      assert c[i] == s[|a| + i];
    }
    SkipContinuations(c, rest);
    assert c + rest == b;
    assert s[n..] == rest;
  }

  lemma CutLeft(a: seq<Byte>, b: seq<Byte>)
    requires a != [] && SequenceLength(a + b) > |a|
    ensures Decode(a) == ""
  {
    SequenceOfPrefix(a, b);
    var c := a[1..];
    assert forall i :: 0 <= i < |c| ==> c[i] == (a + b)[i + 1];
    hide SequenceLength, ScalarValue;
    SkipContinuations(c, []);
    assert c + [] == c;
  }

  /** Decoding two pieces separately loses exactly the character across the cut. */
  lemma {:induction false} DecodeConcat(a: seq<Byte>, b: seq<Byte>)
    ensures |Decode(a + b)| == |Decode(a)| + |Decode(b)| + if Straddles(a, b) then 1 else 0
    ensures !Straddles(a, b) ==> Decode(a + b) == Decode(a) + Decode(b)
    decreases |a|
  {
    hide SequenceLength, ScalarValue;
    if a == [] {
      assert a + b == b;
    } else {
      var n := SequenceLength(a + b);
      SequenceOfPrefix(a, b);
      if n > |a| {
        CutCharacter(a, b);
      } else {
        var k := if n == 0 then 1 else n;
        assert (a + b)[k..] == a[k..] + b;
        DecodeConcat(a[k..], b);
      }
    }
  }

  predicate Ascii(b: seq<Byte>)
  {
    forall i :: 0 <= i < |b| ==> b[i] < 0x80
  }

  lemma {:induction false} AsciiNeverStraddles(a: seq<Byte>, b: seq<Byte>)
    requires Ascii(a)
    ensures !Straddles(a, b)
  {
    if a != [] {
      assert (a + b)[0] == a[0];
      AsciiNeverStraddles(a[1..], b);
    }
  }

  function Flatten<T>(pieces: seq<seq<T>>): seq<T>
  {
    if pieces == [] then [] else pieces[0] + Flatten(pieces[1..])
  }

  /** The text of a stream received in chunks. */
  function DecodeChunks(chunks: seq<seq<Byte>>): string
  {
    if chunks == [] then "" else Decode(chunks[0]) + DecodeChunks(chunks[1..])
  }

  /** No cut goes through a character. */
  predicate CleanCuts(chunks: seq<seq<Byte>>)
  {
    chunks == [] || (!Straddles(chunks[0], Flatten(chunks[1..])) && CleanCuts(chunks[1..]))
  }

  /** The text does not depend on the chunking exactly when no cut goes through a character. */
  lemma {:induction false} ChunkingIrrelevantIff(chunks: seq<seq<Byte>>)
    ensures |DecodeChunks(chunks)| <= |Decode(Flatten(chunks))|
    ensures |DecodeChunks(chunks)| == |Decode(Flatten(chunks))| ==> CleanCuts(chunks)
    ensures DecodeChunks(chunks) == Decode(Flatten(chunks)) <==> CleanCuts(chunks)
  {
    if chunks != [] {
      ChunkingIrrelevantIff(chunks[1..]);
      DecodeConcat(chunks[0], Flatten(chunks[1..]));
    }
  }

  /** No cut of an ASCII stream goes through a character. */
  lemma {:induction false} AsciiCutsClean(chunks: seq<seq<Byte>>)
    requires Ascii(Flatten(chunks))
    ensures CleanCuts(chunks)
  {
    if chunks != [] {
      var rest := Flatten(chunks[1..]);
      assert forall i :: 0 <= i < |chunks[0]| ==> chunks[0][i] == Flatten(chunks)[i];
      assert forall i :: 0 <= i < |rest| ==> rest[i] == Flatten(chunks)[|chunks[0]| + i];
      AsciiNeverStraddles(chunks[0], rest);
      AsciiCutsClean(chunks[1..]);
    }
  }

  /** The two bytes of U+00E9 received apart decode to nothing. */
  lemma SplitCharacterLost()
    ensures Decode([0xC3, 0xA9]) == [0xE9 as char]
    ensures DecodeChunks([[0xC3], [0xA9]]) == ""
  {
  }

  // ---------- The round trip ----------

  function ByteOf(n: int): Byte
    requires 0 <= n < 256
  {
    n
  }

  /** The UTF-8 form of one character. */
  function EncodeChar(c: char): seq<Byte>
  {
    var n := c as int;
    if n < 0x80 then [ByteOf(n)]
    else if n < 0x800 then [ByteOf(0xC0 + n / 64), ByteOf(0x80 + n % 64)]
    else if n < 0x10000 then [ByteOf(0xE0 + n / 4096), ByteOf(0x80 + n / 64 % 64), ByteOf(0x80 + n % 64)]
    else [ByteOf(0xF0 + n / 262144), ByteOf(0x80 + n / 4096 % 64), ByteOf(0x80 + n / 64 % 64), ByteOf(0x80 + n % 64)]
  }

  function Encode(s: string): seq<Byte>
  {
    if s == "" then [] else EncodeChar(s[0]) + Encode(s[1..])
  }

  lemma Digits64(n: int)
    requires n >= 0
    ensures n == n / 64 * 64 + n % 64 && n / 64 == n / 4096 * 64 + n / 64 % 64 && n / 4096 == n / 262144 * 64 + n / 4096 % 64
  {
  }

  lemma Recombined(a: int, p: int, q: int, r: int)
    requires 0 <= p < 64 && 0 <= q < 64 && 0 <= r < 64 && a >= 0
    ensures var n := a * 262144 + p * 4096 + q * 64 + r;
      && n / 262144 == a && n / 4096 % 64 == p && n / 64 % 64 == q && n % 64 == r
      && n / 4096 == a * 64 + p && n / 64 == (a * 64 + p) * 64 + q
  {
    var n := a * 262144 + p * 4096 + q * 64 + r;
    var m, l := (a * 64 + p) * 64 + q, a * 64 + p;
    assert n == m * 64 + r && m == l * 64 + q && l == a * 64 + p;
    Digits64(n);
    assert n / 64 == m && m / 64 == l && l / 64 == a;
    assert n / 4096 == l && n / 262144 == a;
  }

  /** Every sequence accepted is the UTF-8 form of the character read: no overlong forms, no
      surrogates. */
  lemma SequenceIsEncoding(b: seq<Byte>)
    requires SequenceLength(b) > 0
    ensures EncodeChar(ScalarValue(b)) == b[..SequenceLength(b)]
  {
    var n, first: int := SequenceLength(b), b[0];
    if n == 2 {
      Recombined(0, 0, first - 0xC0, Payload(b[1]));
    } else if n == 3 {
      Recombined(0, first - 0xE0, Payload(b[1]), Payload(b[2]));
    } else if n == 4 {
      Recombined(first - 0xF0, Payload(b[1]), Payload(b[2]), Payload(b[3]));
    }
  }

  /** One character is read back, whatever follows it. */
  lemma CharRead(c: char, rest: seq<Byte>)
    ensures SequenceLength(EncodeChar(c) + rest) == |EncodeChar(c)| > 0
    ensures ScalarValue(EncodeChar(c) + rest) == c
  {
    Digits64(c as int);
  }

  /** Decoding gives back every text from its UTF-8 form. */
  lemma {:induction false} DecodeEncode(s: string)
    ensures Decode(Encode(s)) == s
  {
    if s != "" {
      hide SequenceLength, ScalarValue, EncodeChar, Decode;
      DecodeEncode(s[1..]);
      CharFirst(s[0], Encode(s[1..]));
    } else {
      EmptyDecoded();
    }
  }

  lemma EmptyDecoded()
    ensures Decode([]) == ""
  {
  }

  /** Bytes that open no well-formed sequence are skipped. */
  lemma {:induction false} StraysSkipped(s: string, stray: Byte, t: string)
    requires 0x80 <= stray < 0xC2 || stray >= 0xF5
    ensures Decode(Encode(s) + [stray] + Encode(t)) == s + t
  {
    hide SequenceLength, ScalarValue, EncodeChar, Decode;
    if s == "" {
      assert Encode(s) == [] && [] + [stray] + Encode(t) == [stray] + Encode(t);
      StrayFirst(stray, Encode(t));
      DecodeEncode(t);
      assert "" + t == t;
    } else {
      var rest := Encode(s[1..]) + [stray] + Encode(t);
      StraysSkipped(s[1..], stray, t);
      CharFirst(s[0], rest);
      assert Encode(s) + [stray] + Encode(t) == EncodeChar(s[0]) + rest;
      assert [s[0]] + (s[1..] + t) == s + t;
    }
  }

  lemma StrayFirst(stray: Byte, rest: seq<Byte>)
    requires 0x80 <= stray < 0xC2 || stray >= 0xF5
    ensures Decode([stray] + rest) == Decode(rest)
  {
    assert SequenceLength([stray] + rest) == 0;
    assert ([stray] + rest)[1..] == rest;
    hide SequenceLength, ScalarValue;
  }

  lemma CharFirst(c: char, rest: seq<Byte>)
    ensures Decode(EncodeChar(c) + rest) == [c] + Decode(rest)
  {
    CharRead(c, rest);
    hide SequenceLength, ScalarValue, EncodeChar;
    assert (EncodeChar(c) + rest)[|EncodeChar(c)|..] == rest;
  }
}
