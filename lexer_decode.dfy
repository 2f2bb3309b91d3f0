/**
  What `next()` does with bytes: ASCII, the multi-byte forms of section 3 of
  RFC 3629, malformed continuation bytes, and invalid lead bytes.
 */
module LexDecode {
  import opened Basics
  import opened Diagnostics
  import opened LexSpec

  /** The position after the look-ahead moves past a code point that is not a newline. */
  function NextColumn(p: Pos): Pos {
    Pos(p.line, p.col + 1)
  }

  /** The position after the look-ahead moves past a newline. */
  function NextLine(p: Pos): Pos {
    Pos(p.line + 1, 1)
  }

  /**
    An ASCII byte decodes to itself; the look-ahead moves to the next line after
    a newline and one column on otherwise; nothing is reported.
   */
  lemma AsciiDecodesToItself(st: LexState)
    requires Valid(st) && st.pos < |st.input| && st.input[st.pos] < 128
    ensures var r := Next(st);
      && r.value == st.peek
      && r.st.peek == st.input[st.pos]
      && r.st.pos == st.pos + 1
      && r.st.back == st.peekPos
      && r.st.peekPos == (if st.input[st.pos] == 10 then NextLine(st.peekPos) else NextColumn(st.peekPos))
      && r.st.report == st.report
  {
  }

  /** The UTF-8 encoding of a Unicode scalar value, after the table in section 3 of RFC 3629. */
  function Encode(cp: nat): (r: seq<nat>)
    requires IsScalar(cp)
    ensures 1 <= |r| <= 4 && IsBytes(r)
    ensures (|r| == 1 <==> cp < 0x80) && (|r| == 2 <==> 0x80 <= cp < 0x800)
    ensures (|r| == 3 <==> 0x800 <= cp < 0x1_0000) && (|r| == 4 <==> 0x1_0000 <= cp)
    ensures forall i :: 1 <= i < |r| ==> 128 <= r[i] < 192
  {
    if cp < 0x80 then [cp]
    else if cp < 0x800 then [0xC0 + cp / 64, 0x80 + cp % 64]
    else if cp < 0x1_0000 then [0xE0 + cp / 4096, 0x80 + (cp / 64) % 64, 0x80 + cp % 64]
    else [0xF0 + cp / 262144, 0x80 + (cp / 4096) % 64, 0x80 + (cp / 64) % 64, 0x80 + cp % 64]
  }

  /** A well-formed continuation byte gives its low six bits and reports nothing. */
  lemma GoodContinuation(st: LexState)
    requires Valid(st) && st.pos < |st.input| && 128 <= st.input[st.pos] < 192
    ensures var c := Continuation(st);
      && c.value == st.input[st.pos] - 128
      && c.st == st.(pos := st.pos + 1)
  {
    var b := st.input[st.pos];
    assert b / 64 == 2;
  }

  /** The six-bit groups of a code point put back together. */
  lemma Recombine2(cp: nat)
    requires cp < 0x800
    ensures (cp / 64) * 64 + cp % 64 == cp
  {
  }

  lemma Recombine3(cp: nat)
    requires cp < 0x1_0000
    ensures (cp / 4096) * 4096 + ((cp / 64) % 64) * 64 + cp % 64 == cp
  {
    assert cp / 64 == (cp / 4096) * 64 + (cp / 64) % 64;
  }

  lemma Recombine4(cp: nat)
    requires cp < 0x11_0000
    ensures (cp / 262144) * 262144 + ((cp / 4096) % 64) * 4096 + ((cp / 64) % 64) * 64 + cp % 64 == cp
  {
    assert cp / 4096 == (cp / 262144) * 64 + (cp / 4096) % 64;
    assert cp / 64 == (cp / 4096) * 64 + (cp / 64) % 64;
  }

  /** The input holds `bytes` at the read position. */
  predicate At(st: LexState, bytes: seq<nat>) {
    st.pos + |bytes| <= |st.input| && st.input[st.pos..st.pos + |bytes|] == bytes
  }

  /** A two-byte sequence: the lead's five payload bits, then the continuation's six. */
  lemma DecodeTwo(st: LexState)
    requires Valid(st) && st.pos + 1 < |st.input|
    requires 192 <= st.input[st.pos] < 224 && 128 <= st.input[st.pos + 1] < 192
    ensures Next(st).st == Shifted(st.(pos := st.pos + 2), (st.input[st.pos] % 32) * 64 + (st.input[st.pos + 1] - 128), false)
  {
    GoodContinuation(st.(pos := st.pos + 1));
  }

  /** A three-byte sequence: four payload bits, then six and six. */
  lemma DecodeThree(st: LexState)
    requires Valid(st) && st.pos + 2 < |st.input|
    requires 224 <= st.input[st.pos] < 240
    requires 128 <= st.input[st.pos + 1] < 192 && 128 <= st.input[st.pos + 2] < 192
    ensures Next(st).st == Shifted(st.(pos := st.pos + 3),
      (st.input[st.pos] % 16) * 4096 + (st.input[st.pos + 1] - 128) * 64 + (st.input[st.pos + 2] - 128), false)
  {
    GoodContinuation(st.(pos := st.pos + 1));
    GoodContinuation(st.(pos := st.pos + 2));
  }

  /** A four-byte sequence: three payload bits, then three times six. */
  lemma DecodeFour(st: LexState)
    requires Valid(st) && st.pos + 3 < |st.input|
    requires 240 <= st.input[st.pos] < 248
    requires 128 <= st.input[st.pos + 1] < 192 && 128 <= st.input[st.pos + 2] < 192 && 128 <= st.input[st.pos + 3] < 192
    ensures Next(st).st == Shifted(st.(pos := st.pos + 4),
      (st.input[st.pos] % 8) * 262144 + (st.input[st.pos + 1] - 128) * 4096
        + (st.input[st.pos + 2] - 128) * 64 + (st.input[st.pos + 3] - 128), false)
  {
    GoodContinuation(st.(pos := st.pos + 1));
    GoodContinuation(st.(pos := st.pos + 2));
    GoodContinuation(st.(pos := st.pos + 3));
  }

  /** The bytes `At` the read position, one by one. */
  lemma AtBytes(st: LexState, bytes: seq<nat>)
    requires At(st, bytes)
    ensures forall i :: 0 <= i < |bytes| ==> st.input[st.pos + i] == bytes[i]
  {
    forall i | 0 <= i < |bytes| ensures st.input[st.pos + i] == bytes[i] {
      assert st.input[st.pos..st.pos + |bytes|][i] == st.input[st.pos + i];
    }
  }

  /** The two-byte encoding of `cp` decodes to `cp`. */
  lemma EncodedTwo(st: LexState, cp: nat)
    requires Valid(st) && 0x80 <= cp < 0x800 && st.pos + 1 < |st.input|
    requires st.input[st.pos] == 0xC0 + cp / 64 && st.input[st.pos + 1] == 0x80 + cp % 64
    ensures Next(st).st == Shifted(st.(pos := st.pos + 2), cp, false)
  {
    DecodeTwo(st);
    assert (0xC0 + cp / 64) % 32 == cp / 64;
    Recombine2(cp);
  }

  /** The three-byte encoding of `cp` decodes to `cp`. */
  lemma EncodedThree(st: LexState, cp: nat)
    requires Valid(st) && 0x800 <= cp < 0x1_0000 && st.pos + 2 < |st.input|
    requires st.input[st.pos] == 0xE0 + cp / 4096
    requires st.input[st.pos + 1] == 0x80 + (cp / 64) % 64 && st.input[st.pos + 2] == 0x80 + cp % 64
    ensures Next(st).st == Shifted(st.(pos := st.pos + 3), cp, false)
  {
    DecodeThree(st);
    assert (0xE0 + cp / 4096) % 16 == cp / 4096;
    Recombine3(cp);
  }

  /** The four-byte encoding of `cp` decodes to `cp`. */
  lemma EncodedFour(st: LexState, cp: nat)
    requires Valid(st) && 0x1_0000 <= cp < 0x11_0000 && st.pos + 3 < |st.input|
    requires st.input[st.pos] == 0xF0 + cp / 262144 && st.input[st.pos + 1] == 0x80 + (cp / 4096) % 64
    requires st.input[st.pos + 2] == 0x80 + (cp / 64) % 64 && st.input[st.pos + 3] == 0x80 + cp % 64
    ensures Next(st).st == Shifted(st.(pos := st.pos + 4), cp, false)
  {
    DecodeFour(st);
    assert (0xF0 + cp / 262144) % 8 == cp / 262144;
    Recombine4(cp);
  }

  /**
    Decoding the encoding of a scalar value gives the value back, consumes
    exactly its bytes, reports nothing, and moves the look-ahead one column on
    (or to the next line after a newline).
   */
  lemma DecodesEncoding(st: LexState, cp: nat)
    requires Valid(st) && IsScalar(cp) && At(st, Encode(cp))
    ensures var r := Next(st);
      && r.st.peek == cp
      && r.st.pos == st.pos + |Encode(cp)|
      && r.st.report == st.report
      && r.st.back == st.peekPos
      && r.st.peekPos == (if cp == 10 then NextLine(st.peekPos) else NextColumn(st.peekPos))
  {
    var e := Encode(cp);
    AtBytes(st, e);
    if cp < 0x80 {
      AsciiDecodesToItself(st);
    } else if cp < 0x800 {
      assert e == [0xC0 + cp / 64, 0x80 + cp % 64];
      assert st.input[st.pos] == e[0] && st.input[st.pos + 1] == e[1];
      EncodedTwo(st, cp);
    } else if cp < 0x1_0000 {
      assert e == [0xE0 + cp / 4096, 0x80 + (cp / 64) % 64, 0x80 + cp % 64];
      assert st.input[st.pos] == e[0] && st.input[st.pos + 1] == e[1] && st.input[st.pos + 2] == e[2];
      EncodedThree(st, cp);
    } else {
      assert e == [0xF0 + cp / 262144, 0x80 + (cp / 4096) % 64, 0x80 + (cp / 64) % 64, 0x80 + cp % 64];
      assert st.input[st.pos] == e[0] && st.input[st.pos + 1] == e[1];
      assert st.input[st.pos + 2] == e[2] && st.input[st.pos + 3] == e[3];
      EncodedFour(st, cp);
    }
  }

  /**
    The decoder does not reject what section 3 of RFC 3629 forbids: the overlong
    two-byte form C1 81 of 'A' decodes to 'A' without any error.
   */
  lemma OverlongFormIsAccepted(st: LexState)
    requires Valid(st) && At(st, [0xC1, 0x81])
    ensures Next(st).st.peek == 0x41 && Next(st).st.report == st.report
  {
    assert st.input[st.pos] == 0xC1 && st.input[st.pos + 1] == 0x81 by {
      assert st.input[st.pos..st.pos + 2][0] == st.input[st.pos];
      assert st.input[st.pos..st.pos + 2][1] == st.input[st.pos + 1];
    }
    GoodContinuation(st.(pos := st.pos + 1));
  }

  /** A two-byte lead followed by a byte that is not 10xxxxxx costs exactly one error. */
  lemma BadContinuationIsAnError(st: LexState)
    requires Valid(st) && st.pos + 1 < |st.input|
    requires 192 <= st.input[st.pos] < 224 && st.input[st.pos + 1] < 128
    ensures Next(st).st.report.numErrors == st.report.numErrors + 1
    ensures Next(st).st.pos == st.pos + 2
  {
  }

  /** A lead byte of the form 10xxxxxx or 11111xxx. */
  predicate InvalidLead(b: nat) {
    128 <= b < 192 || 248 <= b < 256
  }

  /**
    As lexer.cpp writes `next()`, an invalid lead byte is reported and consumed
    but the look-ahead keeps the code point before it, so that code point is
    read a second time: after "a" and the byte 0x80 the look-ahead is still 'a'.
   */
  lemma InvalidLeadRepeatsLookahead(st: LexState)
    requires Valid(st) && st.pos < |st.input| && InvalidLead(st.input[st.pos])
    ensures var r := NextAsWritten(st);
      && r.value == 0
      && r.st.peek == st.peek
      && r.st.pos == st.pos + 1
      && r.st.report.numErrors == st.report.numErrors + 1
  {
  }

  /** The concrete case: 'a' in the look-ahead, then 0x80; the 'a' is seen again. */
  lemma InvalidLeadAfterA(st: LexState)
    requires Valid(st) && st.peek == 0x61 && At(st, [0x80])
    ensures NextAsWritten(st).st.peek == 0x61
    ensures Next(st).st.peek == 0
  {
    assert st.input[st.pos] == st.input[st.pos..st.pos + 1][0];
    InvalidLeadRepeatsLookahead(st);
    InvalidLeadIsConsumed(st);
  }

  /**
    With the correction, an invalid lead byte is reported, consumed, and
    decodes to 0; the code point before it is not seen again.
   */
  lemma InvalidLeadIsConsumed(st: LexState)
    requires Valid(st) && st.pos < |st.input| && InvalidLead(st.input[st.pos])
    ensures var r := Next(st);
      && r.st.peek == 0
      && r.st.pos == st.pos + 1
      && r.st.back == st.peekPos
      && r.st.report.numErrors == st.report.numErrors + 1
  {
  }
}
