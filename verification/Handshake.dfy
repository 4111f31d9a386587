/** The token check and the one-line handshake, on bytes. */
module Handshake {
  import opened Wrappers
  import opened Errors

  newtype Byte = b: int | 0 <= b < 256

  const MAX_TOKEN_BYTES: nat := 200
  const NEWLINE: Byte := 10
  const SPACE: Byte := 32

  /** The ASCII bytes of a literal. */
  function Ascii(s: string): (bytes: seq<Byte>)
    requires forall i :: 0 <= i < |s| ==> s[i] < 128 as char
    ensures |bytes| == |s| && forall i :: 0 <= i < |s| ==> bytes[i] as int == s[i] as int
  {
    seq(|s|, i requires 0 <= i < |s| => s[i] as int as Byte)
  }

  /** Protocol word and separator. */
  function Prefix(): seq<Byte> {
    Ascii("SOLANA-GUN-QUIC/1 ")
  }

  /** `u8::is_ascii_graphic`. */
  predicate IsGraphic(b: Byte) {
    33 <= b <= 126
  }

  predicate AllGraphic(token: seq<Byte>) {
    forall i :: 0 <= i < |token| ==> IsGraphic(token[i])
  }

  /** `validate_token`: the first failing check, if any. */
  function ValidateToken(token: seq<Byte>): Option<ConfigError> {
    if token == [] then Some(EmptyToken)
    else if |token| > MAX_TOKEN_BYTES then Some(TokenTooLong(|token|))
    else if !AllGraphic(token) then Some(TokenNotGraphic)
    else None
  }

  function HandshakeLine(token: seq<Byte>): seq<Byte> {
    Prefix() + token + [NEWLINE]
  }

  /** The line as `handshake` builds it, by three pushes. */
  method BuildLine(token: seq<Byte>) returns (line: seq<Byte>)
    ensures line == HandshakeLine(token)
    ensures ServerReads(line) == Some(token) <==> NEWLINE !in token
  {
    line := [];
    line := line + Prefix();
    line := line + token;
    line := line + [NEWLINE];
    ReadBack(token);
  }

  /** Everything before the first newline; `None` if the line never ends. */
  function FirstLine(bytes: seq<Byte>): (r: Option<seq<Byte>>)
    ensures r.Some? ==> r.value + [NEWLINE] <= bytes && NEWLINE !in r.value
    ensures r.None? <==> NEWLINE !in bytes
  {
    if bytes == [] then None
    else if bytes[0] == NEWLINE then Some([])
    else
      match FirstLine(bytes[1..])
      case None => None
      case Some(rest) =>
        assert [bytes[0]] + (rest + [NEWLINE]) <= [bytes[0]] + bytes[1..] == bytes;
        assert [bytes[0]] + rest + [NEWLINE] == [bytes[0]] + (rest + [NEWLINE]);
        Some([bytes[0]] + rest)
  }

  /** The bytes begin with these characters. */
  predicate Spells(bytes: seq<Byte>, text: string) {
    |text| <= |bytes| && forall i :: 0 <= i < |text| ==> bytes[i] as int == text[i] as int
  }

  /** The documented grammar, read as a server does: one line, the protocol word, a space, the token. */
  function ServerReads(bytes: seq<Byte>): Option<seq<Byte>> {
    match FirstLine(bytes)
    case Some(line) => if Spells(line, "SOLANA-GUN-QUIC/1 ") then Some(line[18..]) else None
    case None => None
  }

  lemma PrefixShape()
    ensures |Prefix()| == 18 && Prefix()[17] == SPACE
    ensures forall i :: 0 <= i < 17 ==> IsGraphic(Prefix()[i])
  {
    var word := "SOLANA-GUN-QUIC/1 ";
    assert word[17] == ' ';
    assert forall i :: 0 <= i < 17 ==> 33 as char <= word[i] <= 126 as char;
  }

  lemma {:induction false} FirstLineOf(line: seq<Byte>, rest: seq<Byte>)
    requires NEWLINE !in line
    ensures FirstLine(line + [NEWLINE] + rest) == Some(line)
  {
    var bytes := line + [NEWLINE] + rest;
    if line != [] {
      assert bytes[1..] == line[1..] + [NEWLINE] + rest;
      FirstLineOf(line[1..], rest);
      assert [bytes[0]] + line[1..] == line;
    }
  }

  /** The server reads back exactly the token just when it has no newline in it. */
  lemma ReadBack(token: seq<Byte>)
    ensures ServerReads(HandshakeLine(token)) == Some(token) <==> NEWLINE !in token
  {
    PrefixShape();
    var line := Prefix() + token;
    if NEWLINE !in token {
      assert NEWLINE !in line;
      FirstLineOf(line, []);
      assert HandshakeLine(token) == line + [NEWLINE] + [];
      assert line[|Prefix()|..] == token;
    } else {
      var read := ServerReads(HandshakeLine(token));
      assert read.Some? ==> NEWLINE !in read.value;
    }
  }

  /** For every accepted token: it is read back, and nothing else in the line ends or splits it. */
  lemma AcceptedTokenLine(token: seq<Byte>)
    requires ValidateToken(token).None?
    ensures ServerReads(HandshakeLine(token)) == Some(token)
    ensures |HandshakeLine(token)| <= 219
    ensures forall i :: 0 <= i < |HandshakeLine(token)| ==>
              && (HandshakeLine(token)[i] as int == 10 <==> i == |HandshakeLine(token)| - 1)
              && (HandshakeLine(token)[i] as int == 32 <==> i == 17)
  {
    PrefixShape();
    var line := HandshakeLine(token);
    forall i | 0 <= i < |line|
      ensures (line[i] == NEWLINE <==> i == |line| - 1) && (line[i] == SPACE <==> i == 17)
    {
      if i < 18 {
        assert line[i] == Prefix()[i];
      } else if i < |line| - 1 {
        assert line[i] == token[i - 18] && IsGraphic(token[i - 18]);
      }
    }
    assert forall i :: 0 <= i < |token| ==> IsGraphic(token[i]);
    ReadBack(token);
  }

  /** Exactly the documented tokens are accepted: 1 to 200 bytes, all of them ASCII-graphic. */
  lemma AcceptedIff(token: seq<Byte>)
    ensures ValidateToken(token).None? <==>
            1 <= |token| <= 200 && forall i :: 0 <= i < |token| ==> 0x21 <= token[i] as int <= 0x7E
    ensures ValidateToken(token) == Some(EmptyToken) <==> |token| == 0
    ensures forall n :: ValidateToken(token) == Some(TokenTooLong(n)) <==> n == |token| > 200
  {
    if AllGraphic(token) {
      assert forall i :: 0 <= i < |token| ==> IsGraphic(token[i]);
    }
  }

  /** The encoding is injective on accepted tokens. */
  lemma LineIsInjective(a: seq<Byte>, b: seq<Byte>)
    requires ValidateToken(a).None? && ValidateToken(b).None? && HandshakeLine(a) == HandshakeLine(b)
    ensures a == b
  {
    AcceptedTokenLine(a);
    AcceptedTokenLine(b);
  }
}
