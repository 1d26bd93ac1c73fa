/** The encoders of src/http/user_manager.cpp -- percent-encoding, the canonical query string and
    the base64 loop -- with the decoders their standards define. */
module Encoders {
  import opened Text
  import opened Wrappers

  type Byte = x: int | 0 <= x < 256

  // ---------- Percent-encoding ----------

  predicate IsUnreserved(b: Byte) {
    || '0' as int <= b <= '9' as int || 'A' as int <= b <= 'Z' as int || 'a' as int <= b <= 'z' as int
    || b in {'-' as int, '_' as int, '.' as int, '~' as int}
  }

  function UpperHex(d: nat): char
    requires d < 16
  {
    "0123456789ABCDEF"[d]
  }

  function EncodeByte(b: Byte): string {
    if IsUnreserved(b) then [b as char] else ['%', UpperHex(b / 16), UpperHex(b % 16)]
  }

  function Percent(s: seq<Byte>): string {
    if s == [] then "" else EncodeByte(s[0]) + Percent(s[1..])
  }

  method PercentEncode(s: seq<Byte>) returns (r: string)
    ensures r == Percent(s)
  {
    hide EncodeByte;
    r := "";
    for i := 0 to |s|
      invariant Percent(s) == r + Percent(s[i..])
    {
      assert s[i..][0] == s[i] && s[i..][1..] == s[i + 1..];
      Assoc(r, EncodeByte(s[i]), Percent(s[i + 1..]));
      r := r + EncodeByte(s[i]);
    }
  }

  /** Percent-decoding, section 2.1 of RFC 3986. */
  function Decode(s: string): Option<seq<Byte>>
    decreases |s|
  {
    if s == "" then Some([])
    else if s[0] == '%' then
      if |s| < 3 || HexDigitValue(s[1]) < 0 || HexDigitValue(s[2]) < 0 then None
      else Prepend(HexDigitValue(s[1]) * 16 + HexDigitValue(s[2]), Decode(s[3..]))
    else if s[0] as int < 256 then Prepend(s[0] as int, Decode(s[1..]))
    else None
  }

  function Prepend(b: Byte, rest: Option<seq<Byte>>): Option<seq<Byte>> {
    match rest
    case None => None
    case Some(bs) => Some([b] + bs)
  }

  lemma UpperHexRead(d: nat)
    requires d < 16
    ensures HexDigitValue(UpperHex(d)) == d && UpperHex(d) !in "&=%"
  {
  }

  lemma ByteDecoded(b: Byte, rest: string)
    ensures Decode(EncodeByte(b) + rest) == Prepend(b, Decode(rest))
  {
    var s := EncodeByte(b) + rest;
    if IsUnreserved(b) {
      assert s[1..] == rest;
    } else {
      UpperHexRead(b / 16);
      UpperHexRead(b % 16);
      assert s[3..] == rest;
    }
  }

  /** Decoding undoes encoding, for every byte string. */
  lemma {:induction false} PercentRoundTrip(s: seq<Byte>)
    ensures Decode(Percent(s)) == Some(s)
  {
    hide EncodeByte, Decode;
    if s == [] {
      NothingDecoded();
    } else {
      ByteDecoded(s[0], Percent(s[1..]));
      PercentRoundTrip(s[1..]);
      assert s == [s[0]] + s[1..];
    }
  }

  lemma NothingDecoded()
    ensures Decode("") == Some([])
  {
  }

  lemma EncodeByteFree(b: Byte)
    ensures Free(EncodeByte(b), '&') && Free(EncodeByte(b), '=')
  {
    if !IsUnreserved(b) {
      UpperHexRead(b / 16);
      UpperHexRead(b % 16);
    }
  }

  /** No separator of a query string survives encoding. */
  lemma {:induction false} PercentFree(s: seq<Byte>)
    ensures Free(Percent(s), '&') && Free(Percent(s), '=')
  {
    hide EncodeByte;
    if s != [] {
      EncodeByteFree(s[0]);
      PercentFree(s[1..]);
    }
  }

  // ---------- The canonical query ----------

  /** A parameter map, as the source's ordered map iterates over it. */
  type Params = seq<(seq<Byte>, seq<Byte>)>

  function PairText(p: (seq<Byte>, seq<Byte>)): string {
    Percent(p.0) + "=" + Percent(p.1)
  }

  function Canonical(ps: Params): string {
    if ps == [] then ""
    else if |ps| == 1 then PairText(ps[0])
    else PairText(ps[0]) + "&" + Canonical(ps[1..])
  }

  method CanonicalQuery(ps: Params) returns (query: string)
    ensures query == Canonical(ps)
  {
    hide Percent;
    query := "";
    for i := 0 to |ps|
      invariant Canonical(ps) == Continued(query, ps[i..])
    {
      ContinuedStep(query, ps[i..]);
      assert ps[i..][1..] == ps[i + 1..];
      if query != "" {
        query := query + "&";
      }
      query := query + PairText(ps[i]);
    }
  }

  /** The query once the pairs that are left have followed what is written. */
  function Continued(query: string, left: Params): string {
    if left == [] then query else if query == "" then Canonical(left) else query + "&" + Canonical(left)
  }

  lemma ContinuedStep(query: string, left: Params)
    requires left != []
    ensures Continued(query, left)
         == Continued((if query == "" then "" else query + "&") + PairText(left[0]), left[1..])
  {
    var pair, rest := PairText(left[0]), left[1..];
    PairNotEmpty(left[0]);
    hide PairText;
    assert "" + pair == pair;
    if rest == [] {
      assert left == [left[0]];
    } else {
      assert Canonical(left) == pair + "&" + Canonical(rest);
      Assoc(query + "&", pair, "&" + Canonical(rest));
      Assoc(query + "&" + pair, "&", Canonical(rest));
      Assoc(pair, "&", Canonical(rest));
    }
  }

  lemma PairNotEmpty(p: (seq<Byte>, seq<Byte>))
    ensures PairText(p) != ""
  {
    hide Percent;
  }

  function ReadPair(s: string): Option<(seq<Byte>, seq<Byte>)> {
    var eq := FindChar(s, '=', 0);
    if eq == -1 then None
    else
      var k, v := Decode(s[..eq]), Decode(s[eq + 1..]);
      if k.None? || v.None? then None else Some((k.value, v.value))
  }

  /** Split at '&', then at '=', then percent-decode. */
  function ReadQuery(s: string): Option<Params>
    decreases |s|
  {
    if s == "" then Some([])
    else
      var amp := FindChar(s, '&', 0);
      var first := ReadPair(if amp == -1 then s else s[..amp]);
      var rest := if amp == -1 then Some([]) else ReadQuery(s[amp + 1..]);
      if first.None? || rest.None? then None else Some([first.value] + rest.value)
  }

  lemma PairRead(p: (seq<Byte>, seq<Byte>))
    ensures ReadPair(PairText(p)) == Some(p) && Free(PairText(p), '&') && PairText(p) != ""
  {
    hide Percent, Decode, FindChar;
    var s, n := PairText(p), |Percent(p.0)|;
    PercentFree(p.0);
    PercentFree(p.1);
    PercentRoundTrip(p.0);
    PercentRoundTrip(p.1);
    assert s[n] == "="[0];
    assert forall i :: 0 <= i < n ==> s[i] == Percent(p.0)[i];
    assert forall i :: n < i < |s| ==> s[i] == Percent(p.1)[i - n - 1];
    assert FindChar(s, '=', 0) == n;
    assert s[..n] == Percent(p.0) && s[n + 1..] == Percent(p.1);
  }

  /** Reading the canonical string back gives the whole parameter map, in order. */
  lemma {:induction false} CanonicalRoundTrip(ps: Params)
    ensures ReadQuery(Canonical(ps)) == Some(ps)
  {
    hide PairText, ReadPair, ReadQuery;
    if ps == [] {
      NothingRead();
    } else {
      PairRead(ps[0]);
      if |ps| == 1 {
        OnePairRead(PairText(ps[0]));
        assert ps == [ps[0]];
      } else {
        CanonicalRoundTrip(ps[1..]);
        FirstPairRead(PairText(ps[0]), Canonical(ps[1..]));
        assert ps == [ps[0]] + ps[1..];
      }
    }
  }

  lemma NothingRead()
    ensures ReadQuery("") == Some([])
  {
  }

  lemma OnePairRead(text: string)
    requires text != "" && Free(text, '&') && ReadPair(text).Some?
    ensures ReadQuery(text) == Some([ReadPair(text).value])
  {
    hide ReadPair, FindChar;
    assert FindChar(text, '&', 0) == -1;
    assert [ReadPair(text).value] + [] == [ReadPair(text).value];
  }

  lemma FirstPairRead(text: string, rest: string)
    requires Free(text, '&') && ReadPair(text).Some? && ReadQuery(rest).Some?
    ensures ReadQuery(text + "&" + rest) == Some([ReadPair(text).value] + ReadQuery(rest).value)
  {
    hide ReadPair, FindChar;
    var s, n := text + "&" + rest, |text|;
    assert s[n] == "&"[0];
    assert forall i :: 0 <= i < n ==> s[i] == text[i];
    assert FindChar(s, '&', 0) == n;
    assert s[..n] == text && s[n + 1..] == rest;
  }

  /** Distinct parameter maps are signed as distinct strings. */
  lemma CanonicalInjective(ps: Params, qs: Params)
    requires Canonical(ps) == Canonical(qs)
    ensures ps == qs
  {
    CanonicalRoundTrip(ps);
    CanonicalRoundTrip(qs);
  }

  // ---------- Base64 ----------

  /** The base64 alphabet: capitals, small letters, digits, plus and slash. */
  function Letter(v: nat): char
    requires v < 64
  {
    if v < 26 then ('A' as int + v) as char
    else if v < 52 then ('a' as int + (v - 26)) as char
    else if v < 62 then ('0' as int + (v - 52)) as char
    else if v == 62 then '+'
    else '/'
  }

  /** The four letters of one 24-bit group. */
  function Letters(v: nat): string
    requires v < 0x100_0000
  {
    [Letter(v / 0x4_0000), Letter(v / 0x1000 % 64), Letter(v / 64 % 64), Letter(v % 64)]
  }

  /** The group that starts at `i`; bytes past the end count as zero. */
  function Group(data: seq<Byte>, i: nat): (v: nat)
    requires i < |data|
    ensures v < 0x100_0000
  {
    data[i] as int * 0x1_0000
      + (if i + 1 < |data| then data[i + 1] as int * 0x100 else 0)
      + (if i + 2 < |data| then data[i + 2] else 0)
  }

  function Unpadded(data: seq<Byte>, i: nat): (s: string)
    requires i <= |data| + 2
    decreases |data| + 2 - i
  {
    if i >= |data| then "" else Letters(Group(data, i)) + Unpadded(data, i + 3)
  }

  function Padded(s: string, n: nat): string
    requires |s| >= n
  {
    s[..|s| - n] + seq(n, _ => '=')
  }

  /** How many '=' end the encoding of `n` bytes. */
  function Padding(n: nat): nat {
    if n % 3 == 1 then 2 else if n % 3 == 2 then 1 else 0
  }

  lemma UnpaddedLength(data: seq<Byte>, i: nat)
    requires i <= |data| + 2
    ensures i < |data| ==> |Unpadded(data, i)| >= 4
  {
  }

  /** The encoding of the bytes from `i` on. */
  function EncodedFrom(data: seq<Byte>, i: nat): string
    requires i <= |data|
  {
    if i == |data| then ""
    else
      UnpaddedLength(data, i);
      Padded(Unpadded(data, i), Padding(|data| - i))
  }

  /** The source runs this loop over a 20-byte digest; here the length is arbitrary. */
  method Base64(data: seq<Byte>) returns (out: string)
    ensures out == EncodedFrom(data, 0)
  {
    hide Letters;
    out := "";
    var i := 0;
    while i < |data|
      invariant 0 <= i <= |data| + 2
      invariant Unpadded(data, 0) == out + Unpadded(data, i)
      decreases |data| + 2 - i
    {
      var v: nat := data[i] as int * 0x1_0000;
      if i + 1 < |data| {
        v := v + data[i + 1] as int * 0x100;
      }
      if i + 2 < |data| {
        v := v + data[i + 2];
      }
      assert v == Group(data, i);
      var letters := FourLetters(v);
      Assoc(out, letters, Unpadded(data, i + 3));
      out := out + letters;
      i := i + 3;
    }
    assert Unpadded(data, i) == "" && out == Unpadded(data, 0);
    UnpaddedLength(data, 0);
    out := Pad(out, |data|);
  }

  method FourLetters(v: nat) returns (s: string)
    requires v < 0x100_0000
    ensures s == Letters(v)
  {
    s := [Letter(v / 0x4_0000)];
    s := s + [Letter(v / 0x1000 % 64)];
    s := s + [Letter(v / 64 % 64)];
    s := s + [Letter(v % 64)];
  }

  method Pad(s: string, n: nat) returns (out: string)
    requires n > 0 ==> |s| >= 4
    ensures out == if n == 0 then s else Padded(s, Padding(n))
  {
    out := s;
    var pad := n % 3;
    if pad == 1 {
      out := out[|out| - 1 := '='];
      out := out[|out| - 2 := '='];
    } else if pad == 2 {
      out := out[|out| - 1 := '='];
    }
  }

  function LetterValue(c: char): (v: int)
    ensures -1 <= v < 64
  {
    if 'A' <= c <= 'Z' then c as int - 'A' as int
    else if 'a' <= c <= 'z' then c as int - 'a' as int + 26
    else if '0' <= c <= '9' then c as int - '0' as int + 52
    else if c == '+' then 62
    else if c == '/' then 63
    else -1
  }

  /** Base64 decoding, section 4 of RFC 4648: padding ends the last group only. */
  function Decode64(s: string): Option<seq<Byte>>
    decreases |s|
  {
    if s == "" then Some([])
    else if |s| < 4 then None
    else
      var a, b, c, d := LetterValue(s[0]), LetterValue(s[1]), LetterValue(s[2]), LetterValue(s[3]);
      if a < 0 || b < 0 then None
      else if |s| == 4 && s[2..] == "==" then Some([(a * 64 + b) / 16])
      else if c < 0 then None
      else if |s| == 4 && s[3] == '=' then
        var w := (a * 64 + b) * 64 + c;
        Some([w / 1024, w / 4 % 256])
      else if d < 0 then None
      else
        var w := ((a * 64 + b) * 64 + c) * 64 + d;
        match Decode64(s[4..])
        case None => None
        case Some(rest) => Some([w / 0x1_0000, w / 0x100 % 256, w % 256] + rest)
  }

  lemma LetterRoundTrip(v: nat)
    requires v < 64
    ensures LetterValue(Letter(v)) == v && Letter(v) != '='
  {
  }

  lemma LettersRoundTrip(v: nat)
    requires v < 0x100_0000
    ensures var s := Letters(v);
            && LetterValue(s[0]) == v / 0x4_0000 && LetterValue(s[1]) == v / 0x1000 % 64
            && LetterValue(s[2]) == v / 64 % 64 && LetterValue(s[3]) == v % 64
            && s[2] != '=' && s[3] != '='
  {
    hide Letter, LetterValue;
    LetterRoundTrip(v / 0x4_0000);
    LetterRoundTrip(v / 0x1000 % 64);
    LetterRoundTrip(v / 64 % 64);
    LetterRoundTrip(v % 64);
  }

  lemma Rejoined(v: nat)
    requires v < 0x100_0000
    ensures ((v / 0x4_0000 * 64 + v / 0x1000 % 64) * 64 + v / 64 % 64) * 64 + v % 64 == v
  {
  }

  lemma GroupBytes(x: Byte, y: Byte, z: Byte)
    ensures var v := x as int * 0x1_0000 + y as int * 0x100 + z as int;
            v / 0x1_0000 == x && v / 0x100 % 256 == y && v % 256 == z
  {
  }

  lemma TopByte(x: Byte)
    ensures var v := x as int * 0x1_0000; (v / 0x4_0000 * 64 + v / 0x1000 % 64) / 16 == x
  {
    var v := x as int * 0x1_0000;
    assert v / 0x4_0000 == x / 4 && v / 0x1000 == x * 16;
  }

  lemma TopTwoBytes(x: Byte, y: Byte)
    ensures var v := x as int * 0x1_0000 + y as int * 0x100;
            var w := (v / 0x4_0000 * 64 + v / 0x1000 % 64) * 64 + v / 64 % 64;
            w / 1024 == x && w / 4 % 256 == y
  {
    var v := x as int * 0x1_0000 + y as int * 0x100;
    var w := (v / 0x4_0000 * 64 + v / 0x1000 % 64) * 64 + v / 64 % 64;
    LastSixBits(x, y);
    assert w * 64 == v by { Rejoined(v); }
    UpperBytes(x, y);
  }

  lemma LastSixBits(x: Byte, y: Byte)
    ensures (x as int * 0x1_0000 + y as int * 0x100) % 64 == 0
  {
    assert x as int * 0x1_0000 + y as int * 0x100 == (x as int * 1024 + y as int * 4) * 64;
  }

  lemma UpperBytes(x: Byte, y: Byte)
    ensures var w := x as int * 1024 + y as int * 4; w / 1024 == x && w / 4 % 256 == y
  {
  }

  lemma FullGroupDecoded(v: nat, rest: string)
    requires v < 0x100_0000
    ensures Decode64(Letters(v) + rest)
            == match Decode64(rest)
               case None => None
               case Some(bs) => Some([v / 0x1_0000, v / 0x100 % 256, v % 256] + bs)
  {
    hide Letters, LetterValue;
    var s := Letters(v) + rest;
    LettersRoundTrip(v);
    LettersLength(v);
    Rejoined(v);
    assert s[4..] == rest && s[2] != '=';
    assert |s| == 4 ==> s[2..][0] == s[2];
  }

  lemma WholeGroup(data: seq<Byte>, i: nat, rest: string)
    requires i + 3 <= |data|
    ensures Decode64(Letters(Group(data, i)) + rest)
            == match Decode64(rest) case None => None case Some(bs) => Some(data[i..i + 3] + bs)
  {
    hide Letters, Decode64;
    FullGroupDecoded(Group(data, i), rest);
    GroupBytes(data[i], data[i + 1], data[i + 2]);
    assert data[i..i + 3] == [data[i], data[i + 1], data[i + 2]];
  }

  lemma LettersLength(v: nat)
    requires v < 0x100_0000
    ensures |Letters(v)| == 4
  {
  }

  lemma LastLetters(data: seq<Byte>, i: nat)
    requires i < |data| < i + 3
    ensures EncodedFrom(data, i)
         == Letters(Group(data, i))[..4 - Padding(|data| - i)] + seq(Padding(|data| - i), _ => '=')
  {
    hide Letters, Group;
    LettersLength(Group(data, i));
    assert Unpadded(data, i) == Letters(Group(data, i)) + "";
  }

  lemma OneByteDecoded(v: nat)
    requires v < 0x100_0000
    ensures Decode64([Letters(v)[0], Letters(v)[1], '=', '=']) == Some([(v / 0x4_0000 * 64 + v / 0x1000 % 64) / 16])
  {
    hide LetterValue;
    LettersRoundTrip(v);
    var s := [Letters(v)[0], Letters(v)[1], '=', '='];
    assert s[2..] == "==";
  }

  lemma OneByteLeft(data: seq<Byte>, i: nat)
    requires i + 1 == |data|
    ensures Decode64(EncodedFrom(data, i)) == Some([data[i]])
  {
    hide Letters, Decode64, EncodedFrom;
    var v := Group(data, i);
    LettersLength(v);
    LastLetters(data, i);
    OneByteDecoded(v);
    TopByte(data[i]);
    assert EncodedFrom(data, i) == [Letters(v)[0], Letters(v)[1], '=', '='];
  }

  lemma TwoBytesDecoded(v: nat)
    requires v < 0x100_0000
    ensures var w := (v / 0x4_0000 * 64 + v / 0x1000 % 64) * 64 + v / 64 % 64;
            Decode64([Letters(v)[0], Letters(v)[1], Letters(v)[2], '=']) == Some([w / 1024, w / 4 % 256])
  {
    hide LetterValue;
    LettersRoundTrip(v);
    var s := [Letters(v)[0], Letters(v)[1], Letters(v)[2], '='];
    assert s[2..][0] == s[2];
  }

  lemma TwoBytesLeft(data: seq<Byte>, i: nat)
    requires i + 2 == |data|
    ensures Decode64(EncodedFrom(data, i)) == Some([data[i], data[i + 1]])
  {
    hide Letters, Decode64, EncodedFrom;
    var v := Group(data, i);
    LettersLength(v);
    LastLetters(data, i);
    TwoBytesDecoded(v);
    TopTwoBytes(data[i], data[i + 1]);
    assert EncodedFrom(data, i) == [Letters(v)[0], Letters(v)[1], Letters(v)[2], '='];
  }

  lemma GroupThenRest(data: seq<Byte>, i: nat)
    requires i + 3 <= |data|
    ensures EncodedFrom(data, i) == Letters(Group(data, i)) + EncodedFrom(data, i + 3)
  {
    hide Letters, Group;
    LettersLength(Group(data, i));
    var n := Padding(|data| - i);
    assert n == Padding(|data| - (i + 3));
    if i + 3 == |data| {
      assert Unpadded(data, i + 3) == "";
    } else {
      UnpaddedLength(data, i + 3);
    }
  }

  lemma {:induction false} DecodedFrom(data: seq<Byte>, i: nat)
    requires i <= |data|
    ensures Decode64(EncodedFrom(data, i)) == Some(data[i..])
    decreases |data| - i
  {
    hide Decode64, EncodedFrom, Group;
    if i == |data| {
      NothingEncoded(data);
    } else if i + 1 == |data| {
      OneByteLeft(data, i);
      assert data[i..] == [data[i]];
    } else if i + 2 == |data| {
      TwoBytesLeft(data, i);
      assert data[i..] == [data[i], data[i + 1]];
    } else {
      GroupThenRest(data, i);
      WholeGroup(data, i, EncodedFrom(data, i + 3));
      DecodedFrom(data, i + 3);
      assert data[i..i + 3] + data[i + 3..] == data[i..];
    }
  }

  lemma NothingEncoded(data: seq<Byte>)
    ensures Decode64(EncodedFrom(data, |data|)) == Some([])
    ensures data[|data|..] == []
  {
  }

  /** Decoding the loop's output gives the bytes back, for every length, padding included. */
  lemma Base64RoundTrip(data: seq<Byte>)
    ensures Decode64(EncodedFrom(data, 0)) == Some(data)
  {
    DecodedFrom(data, 0);
  }

  // ---------- Which bytes are escaped ----------

  /** Section 2.3 of RFC 3986: letters, digits, hyphen, period, underscore and tilde. */
  predicate Unreserved(c: char) {
    'A' <= c <= 'Z' || 'a' <= c <= 'z' || '0' <= c <= '9' || c in "-._~"
  }

  lemma UnreservedByte(b: Byte)
    ensures IsUnreserved(b) <==> Unreserved(b as char)
  {
  }

  lemma UpperHexDigit(d: nat)
    requires d < 16
    ensures UpperHex(d) in "0123456789ABCDEF"
  {
  }

  /** One byte is kept if it is unreserved, and written as an uppercase triplet if not. */
  lemma ByteEscaped(b: Byte)
    ensures if Unreserved(b as char) then EncodeByte(b) == [b as char]
            else && |EncodeByte(b)| == 3 && EncodeByte(b)[0] == '%'
                 && EncodeByte(b)[1] in "0123456789ABCDEF" && EncodeByte(b)[2] in "0123456789ABCDEF"
  {
    hide IsUnreserved, Unreserved, UpperHex;
    UnreservedByte(b);
    UpperHexDigit(b / 16);
    UpperHexDigit(b % 16);
  }

  /** The text of unreserved characters as bytes. */
  function Bytes(s: string): seq<Byte>
    requires forall c <- s :: Unreserved(c)
  {
    seq(|s|, i requires 0 <= i < |s| => AsByte(s[i]))
  }

  function AsByte(c: char): Byte
    requires Unreserved(c)
  {
    c as int
  }

  /** Unreserved text is not changed by percent-encoding. */
  lemma {:induction false} UnreservedUnchanged(s: string)
    requires forall c <- s :: Unreserved(c)
    ensures Percent(Bytes(s)) == s
  {
    hide Unreserved, EncodeByte;
    if s != "" {
      var bs := Bytes(s);
      ByteEscaped(bs[0]);
      assert bs[1..] == Bytes(s[1..]);
      assert bs[0] as char == s[0];
      UnreservedUnchanged(s[1..]);
    }
  }

  /** Text that is only unreserved characters and uppercase percent triplets. */
  predicate Escaped(s: string)
    decreases |s|
  {
    s == "" || (Unreserved(s[0]) && Escaped(s[1..]))
    || (|s| >= 3 && s[0] == '%' && s[1] in "0123456789ABCDEF" && s[2] in "0123456789ABCDEF" && Escaped(s[3..]))
  }

  /** Percent-encoding writes nothing else. */
  lemma {:induction false} PercentEscapes(s: seq<Byte>)
    ensures Escaped(Percent(s))
  {
    hide EncodeByte;
    if s != [] {
      ByteEscaped(s[0]);
      PercentEscapes(s[1..]);
      var e, rest := EncodeByte(s[0]), Percent(s[1..]);
      assert (e + rest)[|e|..] == rest;
    }
  }
}
