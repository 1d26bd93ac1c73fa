/** A recipient's view of chunked transfer coding (section 7.1 of RFC 9112), for messages
    without chunk extensions and trailer fields. */
module ChunkedCoding {
  import opened Text

  /** The chunks received, whether the last chunk was seen, and the bytes not consumed. */
  datatype Received = Received(chunks: seq<string>, complete: bool, rest: string)

  predicate HexNumber(s: string) {
    s != "" && forall i :: 0 <= i < |s| ==> HexDigitValue(s[i]) >= 0
  }

  function HexValue(s: string): nat
    requires forall i :: 0 <= i < |s| ==> HexDigitValue(s[i]) >= 0
  {
    if s == "" then 0 else HexValue(s[..|s| - 1]) * 16 + HexDigitValue(s[|s| - 1])
  }

  /** Read chunks until the last chunk, or until what is left is not a whole chunk. */
  function Receive(s: string): Received
    decreases |s|
  {
    var line := Find(s, CRLF, 0);
    if line == -1 || !HexNumber(s[..line]) then Received([], false, s)
    else
      var size, start := HexValue(s[..line]), line + 2;
      if start + size + 2 > |s| || s[start + size..start + size + 2] != CRLF then Received([], false, s)
      else if size == 0 then Received([], true, s[start + 2..])
      else
        var later := Receive(s[start + size + 2..]);
        later.(chunks := [s[start..start + size]] + later.chunks)
  }

  lemma HexDigitRoundTrip(d: nat)
    requires d < 16
    ensures HexDigitValue(Digit(d)) == d
  {
  }

  lemma {:induction false} HexRoundTrip(n: nat)
    ensures HexNumber(Hex(n)) && HexValue(Hex(n)) == n
  {
    HexDigitRoundTrip(n % 16);
    if n < 16 {
      assert Hex(n)[..0] == "";
    } else {
      hide Digit, HexDigitValue;
      HexRoundTrip(n / 16);
      HexAppend(Hex(n / 16), Digit(n % 16));
    }
  }

  lemma HexAppend(s: string, c: char)
    requires HexNumber(s) && HexDigitValue(c) >= 0
    ensures HexNumber(s + [c]) && HexValue(s + [c]) == HexValue(s) * 16 + HexDigitValue(c)
  {
    hide HexDigitValue;
    assert (s + [c])[..|s|] == s;
  }

  /** The writer's framing of one chunk. */
  function ChunkOf(data: string): string {
    Hex(|data|) + CRLF + data + CRLF
  }

  const LAST_CHUNK := "0\r\n\r\n"

  /** A chunk with data is received as that data; an empty one is taken for the last chunk. */
  lemma ChunkReceived(data: string, rest: string)
    ensures Receive(ChunkOf(data) + rest)
            == if data == "" then Received([], true, rest)
               else Receive(rest).(chunks := [data] + Receive(rest).chunks)
  {
    hide Hex, HexValue, HexDigitValue, Find;
    var h, s, body := Hex(|data|), ChunkOf(data) + rest, data + CRLF + rest;
    assert s == h + CRLF + body;
    LineFound(h, body);
    HexRoundTrip(|data|);
    BodySplit(s, |h| + 2, data, rest);
  }

  lemma BodySplit(s: string, start: nat, data: string, rest: string)
    requires start <= |s| && s[start..] == data + CRLF + rest
    ensures start + |data| + 2 <= |s|
    ensures s[start..start + |data|] == data
    ensures s[start + |data|..start + |data| + 2] == CRLF
    ensures s[start + |data| + 2..] == rest
  {
    var body := data + CRLF + rest;
    assert s[start..start + |data|] == body[..|data|];
    assert s[start + |data|..start + |data| + 2] == body[|data|..|data| + 2];
    assert s[start + |data| + 2..] == body[|data| + 2..];
  }

  lemma LastReceived(rest: string)
    ensures Receive(LAST_CHUNK + rest) == Received([], true, rest)
  {
    assert Hex(0) == "0";
    assert ChunkOf("") == LAST_CHUNK;
    ChunkReceived("", rest);
  }

  lemma NothingReceived()
    ensures Receive("") == Received([], false, "")
  {
  }
}
