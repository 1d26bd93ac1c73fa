/** String searching and line structure shared by the wire formats. */
module Text {

  const CRLF := "\r\n"
  const BLANK := "\r\n\r\n"

  /** `p` occurs in `s` at `i`. */
  predicate At(s: string, i: int, p: string) {
    0 <= i && i + |p| <= |s| && s[i..i + |p|] == p
  }

  /** std::string::find: the first occurrence at or after `from`, -1 for npos. */
  function Find(s: string, p: string, from: nat): (r: int)
    ensures r == -1 || (from <= r && At(s, r, p))
    ensures forall i :: from <= i && (r == -1 || i < r) ==> !At(s, i, p)
    decreases |s| - from
  {
    if from + |p| > |s| then -1
    else if s[from..from + |p|] == p then from
    else if from == |s| then -1
    else Find(s, p, from + 1)
  }

  /** std::string::find for one character. */
  function FindChar(s: string, c: char, from: nat): (r: int)
    ensures r == -1 || (from <= r < |s| && s[r] == c)
    ensures forall i :: from <= i < |s| && (r == -1 || i < r) ==> s[i] != c
    decreases |s| - from
  {
    if from >= |s| then -1 else if s[from] == c then from else FindChar(s, c, from + 1)
  }

  lemma FindCharFrom(s: string, c: char, from: nat)
    requires from <= |s|
    ensures FindChar(s[from..], c, 0) == if FindChar(s, c, from) == -1 then -1 else FindChar(s, c, from) - from
  {
    hide FindChar;
    var left := s[from..];
    assert forall i :: 0 <= i < |left| ==> left[i] == s[from + i];
    var r, here := FindChar(left, c, 0), FindChar(s, c, from);
    if r != -1 { assert s[from + r] == c; }
    if here != -1 { assert left[here - from] == c; }
  }

  lemma FindCharShift(a: string, s: string, c: char, k: nat)
    requires k <= |s|
    ensures FindChar(a + s, c, |a| + k) == if FindChar(s, c, k) == -1 then -1 else |a| + FindChar(s, c, k)
  {
    hide FindChar;
    SliceShift(a, s, k, k);
    FindCharFrom(a + s, c, |a| + k);
    FindCharFrom(s, c, k);
  }

  /** std::getline from `pos`: the characters up to `stop`, and where reading goes on. */
  datatype Line = Line(text: string, next: nat)

  function GetLine(s: string, stop: char, pos: nat): (r: Line)
    requires pos < |s|
    ensures pos < r.next <= |s|
    ensures Free(r.text, stop) && pos + |r.text| <= |s| && r.text == s[pos..pos + |r.text|]
    ensures r.next == if pos + |r.text| == |s| then |s| else pos + |r.text| + 1
    ensures pos + |r.text| < |s| ==> s[pos + |r.text|] == stop
  {
    var end := FindChar(s, stop, pos);
    if end == -1 then Line(s[pos..], |s|) else Line(s[pos..end], end + 1)
  }

  lemma LineShift(a: string, s: string, stop: char, k: nat)
    requires k < |s|
    ensures GetLine(a + s, stop, |a| + k).text == GetLine(s, stop, k).text
    ensures GetLine(a + s, stop, |a| + k).next == |a| + GetLine(s, stop, k).next
  {
    hide FindChar;
    FindCharShift(a, s, stop, k);
    SliceShift(a, s, k, if FindChar(s, stop, k) == -1 then |s| else FindChar(s, stop, k));
  }

  lemma SliceShift(a: string, s: string, k: nat, end: nat)
    requires k <= end <= |s|
    ensures (a + s)[|a| + k..|a| + end] == s[k..end]
    ensures (a + s)[|a| + k..] == s[k..]
  {
  }

  /** A line as the servers read it: one trailing carriage return is dropped. */
  function DropCR(line: string): string {
    if line != "" && line[|line| - 1] == '\r' then line[..|line| - 1] else line
  }

  predicate Free(s: string, c: char) {
    forall i :: 0 <= i < |s| ==> s[i] != c
  }

  /** No carriage return and no line feed. */
  predicate OneLine(s: string) {
    Free(s, '\r') && Free(s, '\n')
  }

  lemma OneLineAppend(a: string, b: string)
    requires OneLine(a) && OneLine(b)
    ensures OneLine(a + b)
  {
  }

  lemma Assoc(a: string, b: string, c: string)
    ensures a + b + c == a + (b + c)
  {
  }

  function Concat(parts: seq<string>): string {
    if parts == [] then "" else parts[0] + Concat(parts[1..])
  }

  /** Header lines, each ended by CRLF. */
  function Block(lines: seq<string>): string {
    if lines == [] then "" else lines[0] + CRLF + Block(lines[1..])
  }

  predicate HeaderLines(lines: seq<string>) {
    forall i :: 0 <= i < |lines| ==> lines[i] != "" && OneLine(lines[i])
  }

  /** An occurrence read character by character. */
  lemma AtChar(s: string, i: nat, p: string, k: nat)
    requires k < |p|
    ensures At(s, i, p) ==> s[i + k] == p[k]
  {
    assert At(s, i, p) ==> s[i..i + |p|][k] == s[i + k];
  }

  lemma AtShift(a: string, s: string, i: nat, p: string)
    ensures At(a + s, |a| + i, p) <==> At(s, i, p)
  {
    if i + |p| <= |s| {
      assert (a + s)[|a| + i..|a| + i + |p|] == s[i..i + |p|];
    }
  }

  lemma AtAfter(before: string, p: string, rest: string)
    ensures At(before + (p + rest), |before|, p)
  {
    assert (p + rest)[..|p|] == p;
    AtShift(before, p + rest, 0, p);
  }

  /** The search for `p` runs over `raw`, which it does not start in, and stops after it. */
  lemma FoundAfter(before: string, raw: string, p: string, rest: string)
    requires forall k: nat :: k < |raw| ==> !At(raw + p + rest, k, p)
    ensures Find(before + (raw + p + rest), p, |before|) == |before| + |raw|
  {
    hide Find, At;
    var tail := raw + p + rest;
    Assoc(raw, p, rest);
    AtAfter(raw, p, rest);
    AtShift(before, tail, |raw|, p);
    FoundNoEarlier(before, tail, p, |raw|);
  }

  lemma FoundNoEarlier(before: string, tail: string, p: string, n: nat)
    requires At(before + tail, |before| + n, p)
    requires forall k: nat :: k < n ==> !At(tail, k, p)
    ensures Find(before + tail, p, |before|) == |before| + n
  {
    hide Find, At;
    var r := Find(before + tail, p, |before|);
    assert r <= |before| + n && r != -1;
    AtShift(before, tail, r - |before|, p);
  }

  /** A search in a suffix is a search in the whole. */
  lemma FindShift(a: string, s: string, p: string, k: nat)
    ensures Find(a + s, p, |a| + k) == if Find(s, p, k) == -1 then -1 else |a| + Find(s, p, k)
  {
    hide Find, At;
    var all, here := Find(a + s, p, |a| + k), Find(s, p, k);
    if here != -1 { AtShift(a, s, here, p); }
    if all != -1 { AtShift(a, s, all - |a|, p); }
  }

  lemma FindSkip(s: string, p: string, from: nat, to: nat)
    requires from <= to && forall k :: from <= k < to ==> !At(s, k, p)
    ensures Find(s, p, from) == Find(s, p, to)
  {
    hide Find, At;
    var a, b := Find(s, p, from), Find(s, p, to);
    assert a != -1 ==> At(s, a, p);
    assert b != -1 ==> At(s, b, p);
  }

  lemma Slice(before: string, raw: string, rest: string)
    ensures (before + (raw + rest))[|before|..|before| + |raw|] == raw
  {
  }

  /** A line is found up to its own CRLF. */
  lemma LineFound(line: string, rest: string)
    requires Free(line, '\r')
    ensures var s := line + CRLF + rest;
            && Find(s, CRLF, 0) == |line|
            && s[..|line|] == line && s[|line| + 2..] == rest
  {
    var s := line + CRLF + rest;
    assert s == line + (CRLF + rest);
    AtShift(line, CRLF + rest, 0, CRLF);
    forall i: nat | i < |line| ensures !At(s, i, CRLF) {
      assert s[i] == line[i];
      AtChar(s, i, CRLF, 0);
    }
  }

  lemma {:induction false} BlankAfterBlock(lines: seq<string>, rest: string)
    requires lines != [] && HeaderLines(lines)
    ensures |Block(lines)| >= 3 && At(Block(lines) + CRLF + rest, |Block(lines)| - 2, BLANK)
  {
    TailLines(lines);
    hide At, HeaderLines;
    var line, tail := lines[0], lines[1..];
    if tail == [] {
      assert Block(lines) == line + CRLF;
      assert line + CRLF + CRLF + rest == line + (BLANK + rest);
      AtAfter(line, BLANK, rest);
    } else {
      var s' := Block(tail) + CRLF + rest;
      BlankAfterBlock(tail, rest);
      Assoc(line + CRLF, Block(tail), CRLF);
      Assoc(line + CRLF, Block(tail) + CRLF, rest);
      AtShift(line + CRLF, s', |Block(tail)| - 2, BLANK);
    }
  }

  lemma TailLines(lines: seq<string>)
    requires lines != [] && HeaderLines(lines)
    ensures HeaderLines(lines[1..]) && |lines[0]| >= 1
  {
  }

  lemma {:induction false} NoBlankInBlock(lines: seq<string>, rest: string, i: nat)
    requires lines != [] && HeaderLines(lines) && i + 2 < |Block(lines)|
    ensures !At(Block(lines) + CRLF + rest, i, BLANK)
  {
    var line, tail := lines[0], lines[1..];
    var here, s, s' := line + CRLF, Block(lines) + CRLF + rest, Block(tail) + CRLF + rest;
    assert s == here + s';
    if i >= |here| {
      NoBlankInBlock(tail, rest, i - |here|);
      AtShift(here, s', i - |here|, BLANK);
    } else {
      assert s[i] == here[i];
      assert i == |line| ==> tail != [] && s[i + 2] == s'[0] == tail[0][0];
      AtChar(s, i, BLANK, 0);
      AtChar(s, i, BLANK, 1);
      AtChar(s, i, BLANK, 2);
    }
  }

  /** The first blank line after a block of header lines is the one that ends it. */
  lemma BlockEnd(lines: seq<string>, rest: string)
    requires lines != [] && HeaderLines(lines)
    ensures |Block(lines)| >= 3
    ensures Find(Block(lines) + CRLF + rest, BLANK, 0) == |Block(lines)| - 2
  {
    var s := Block(lines) + CRLF + rest;
    BlankAfterBlock(lines, rest);
    forall i: nat | i + 2 < |Block(lines)| ensures !At(s, i, BLANK) {
      NoBlankInBlock(lines, rest, i);
    }
  }

  // ---------- Numbers ----------

  function Digit(d: nat): (c: char)
    requires d < 16
    ensures c != '\r' && c != '\n'
  {
    "0123456789abcdef"[d]
  }

  /** The value of a hexadecimal digit in either case, -1 for any other character. */
  function HexDigitValue(c: char): (v: int)
    ensures -1 <= v < 16
  {
    if '0' <= c <= '9' then c as int - '0' as int
    else if 'a' <= c <= 'f' then c as int - 'a' as int + 10
    else if 'A' <= c <= 'F' then c as int - 'A' as int + 10
    else -1
  }

  /** What `<< std::hex` prints. */
  function Hex(n: nat): (s: string)
    ensures s != "" && OneLine(s)
  {
    if n < 16 then [Digit(n)] else Hex(n / 16) + [Digit(n % 16)]
  }

  function Decimal(n: int): (s: string)
    ensures s != "" && OneLine(s)
    decreases if n < 0 then 1 - n else n
  {
    if n < 0 then "-" + Decimal(-n)
    else if n < 10 then [Digit(n)] else Decimal(n / 10) + [Digit(n % 10)]
  }
}
