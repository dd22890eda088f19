/** The body length a header block announces, as the socket reader finds it. */
module ContentLength {
  import opened Lists
  import opened Text
  import opened Decimal
  import opened Framing

  // ---- Text ------------------------------------------------------------------------------

  /** A name with its ASCII letters in lower case. */
  function Lower(s: string): (r: string)
    ensures |r| == |s|
  {
    seq(|s|, i requires 0 <= i < |s| => if 'A' <= s[i] <= 'Z' then s[i] + ' ' else s[i])
  }

  function Colon(s: string, i: nat := 0): (r: Option<nat>)
    requires i <= |s|
    ensures r.Some? ==> i <= r.value < |s| && s[r.value] == ':' && forall k :: i <= k < r.value ==> s[k] != ':'
    ensures r.None? ==> forall k :: i <= k < |s| ==> s[k] != ':'
    decreases |s| - i
  {
    if i == |s| then None else if s[i] == ':' then Some(i) else Colon(s, i + 1)
  }

  /** Rust's parse::<usize> on a 64-bit machine. */
  function ParseSize(s: string): Option<nat> {
    var digits := if s != "" && s[0] == '+' then s[1..] else s;
    if digits != "" && AllDigits(digits) && Value(digits) < 0x1_0000_0000_0000_0000 then Some(Value(digits)) else None
  }

  /** What one header line says about the length, if anything. */
  function Declared(line: string): Option<nat> {
    match Colon(line)
    case None => None
    case Some(i) =>
      if Lower(line[..i]) == Lower("Content-Length") then ParseSize(Trim(line[i + 1..])) else None
  }

  function FirstDeclared(lines: seq<string>): Option<nat> {
    if lines == [] then None
    else if Declared(lines[0]).Some? then Declared(lines[0])
    else FirstDeclared(lines[1..])
  }

  /** Only ASCII capitals change. */
  lemma LowerExactly(s: string, i: nat)
    requires i < |s|
    ensures Lower(s)[i] as int == if 'A' <= s[i] <= 'Z' then s[i] as int + 32 else s[i] as int
    ensures Lower("Content-Length") == "content-length"
  {
  }

  /** A line without a colon, or with another name in front of its first colon. */
  ghost predicate OtherField(line: string) {
    || ':' !in line
    || exists name, value :: line == name + ([':'] + value) && ':' !in name && Lower(name) != "content-length"
  }

  /** Other fields say nothing about the length, whatever their value. */
  lemma OtherFieldsDeclareNothing(line: string)
    requires OtherField(line)
    ensures Declared(line) == None
  {
    if ':' in line {
      var name, value :| line == name + ([':'] + value) && ':' !in name && Lower(name) != "content-length";
      ColonAt(line, 0, |name|);
      assert line[..|name|] == name;
      LowerExactly("Content-Length", 0);
    } else {
      assert Colon(line) == None;
    }
  }

  /** A number has digits only, perhaps behind a plus sign, and fits 64 bits. */
  lemma ParseSizeExactly(s: string, n: nat)
    ensures ParseSize(s) == Some(n) <==>
              exists digits :: (s == digits || s == ['+'] + digits) && digits != "" && AllDigits(digits) &&
                               Value(digits) == n && n <= 18446744073709551615
  {
    if ParseSize(s) == Some(n) {
      var digits := if s[0] == '+' then s[1..] else s;
      assert s[0] == '+' ==> s == ['+'] + digits;
    }
    if digits :| (s == digits || s == ['+'] + digits) && digits != "" && AllDigits(digits) &&
                 Value(digits) == n && n <= 18446744073709551615 {
      assert IsDigit(digits[0]);
      if s != digits {
        assert s[1..] == digits;
      }
    }
  }

  // ---- Bytes -------------------------------------------------------------------------------

  predicate Continues(b: byte) { 0x80 <= b < 0xC0 }

  /** The first UTF-8 sequence: its scalar value and its length (section 4 of RFC 3629). */
  function FirstScalar(s: Bytes): Option<(nat, nat)>
    requires s != []
  {
    if s[0] < 0x80 then Some((s[0], 1))
    else if 0xC2 <= s[0] < 0xE0 && |s| >= 2 && Continues(s[1]) then
      Some(((s[0] as int - 0xC0) * 0x40 + (s[1] - 0x80), 2))
    else if 0xE0 <= s[0] < 0xF0 && |s| >= 3 && Continues(s[1]) && Continues(s[2]) then
      var v := (s[0] as int - 0xE0) * 0x1000 + (s[1] as int - 0x80) * 0x40 + (s[2] - 0x80);
      if v < 0x800 || 0xD800 <= v < 0xE000 then None else Some((v, 3))
    else if 0xF0 <= s[0] < 0xF5 && |s| >= 4 && Continues(s[1]) && Continues(s[2]) && Continues(s[3]) then
      var v := (s[0] as int - 0xF0) * 0x4_0000 + (s[1] as int - 0x80) * 0x1000 + (s[2] as int - 0x80) * 0x40 + (s[3] - 0x80);
      if v < 0x1_0000 || 0x11_0000 <= v then None else Some((v, 4))
    else None
  }

  function Decode(s: Bytes): Option<string>
    decreases |s|
  {
    if s == [] then Some("")
    else
      match FirstScalar(s)
      case None => None
      case Some((v, n)) =>
        match Decode(s[n..])
        case None => None
        case Some(rest) => Some([v as char] + rest)
  }

  /** The UTF-8 form of a character (section 3 of RFC 3629). */
  function Utf8(c: char): Bytes {
    var v := c as int;
    if v < 0x80 then [v]
    else if v < 0x800 then [0xC0 + v / 0x40, 0x80 + v % 0x40]
    else if v < 0x1_0000 then [0xE0 + v / 0x1000, 0x80 + v / 0x40 % 0x40, 0x80 + v % 0x40]
    else [0xF0 + v / 0x4_0000, 0x80 + v / 0x1000 % 0x40, 0x80 + v / 0x40 % 0x40, 0x80 + v % 0x40]
  }

  function Utf8Text(text: string): Bytes {
    if text == "" then [] else Utf8(text[0]) + Utf8Text(text[1..])
  }

  /** Base-64 digits of a number. */
  lemma Sextets(v: nat)
    ensures v == v / 0x40 * 0x40 + v % 0x40
    ensures v == v / 0x1000 * 0x1000 + v / 0x40 % 0x40 * 0x40 + v % 0x40
    ensures v == v / 0x4_0000 * 0x4_0000 + v / 0x1000 % 0x40 * 0x1000 + v / 0x40 % 0x40 * 0x40 + v % 0x40
  {
    assert v / 0x1000 == v / 0x40 / 0x40 && v / 0x4_0000 == v / 0x40 / 0x40 / 0x40;
  }

  lemma FromSextets(w: nat, x: nat, y: nat, z: nat)
    requires x < 0x40 && y < 0x40 && z < 0x40
    ensures var v := w * 0x4_0000 + x * 0x1000 + y * 0x40 + z;
            v / 0x4_0000 == w && v / 0x1000 % 0x40 == x && v / 0x40 % 0x40 == y && v % 0x40 == z
  {
    var v := w * 0x4_0000 + x * 0x1000 + y * 0x40 + z;
    assert v / 0x40 == w * 0x1000 + x * 0x40 + y;
    assert v / 0x1000 == v / 0x40 / 0x40 == w * 0x40 + x;
    assert v / 0x4_0000 == v / 0x40 / 0x40 / 0x40 == w;
  }

  lemma FirstOfUtf8(c: char, s: Bytes)
    requires Utf8(c) <= s
    ensures FirstScalar(s) == Some((c as int, |Utf8(c)|))
  {
    var v := c as int;
    Sextets(v);
    assert forall i :: 0 <= i < |Utf8(c)| ==> s[i] == Utf8(c)[i];
  }

  lemma Utf8OfFirst(s: Bytes, v: nat, n: nat)
    requires s != [] && FirstScalar(s) == Some((v, n))
    ensures n <= |s| && s[..n] == Utf8(v as char)
  {
    if n == 2 {
      FromSextets(0, 0, s[0] - 0xC0, s[1] - 0x80);
    } else if n == 3 {
      FromSextets(0, s[0] - 0xE0, s[1] - 0x80, s[2] - 0x80);
    } else if n == 4 {
      FromSextets(s[0] - 0xF0, s[1] - 0x80, s[2] - 0x80, s[3] - 0x80);
    }
    assert |Utf8(v as char)| == n;
  }

  lemma {:induction false} DecodeUtf8(text: string)
    ensures Decode(Utf8Text(text)) == Some(text)
  {
    if text != "" {
      var first, rest := Utf8(text[0]), Utf8Text(text[1..]);
      DecodeUtf8(text[1..]);
      FirstOfUtf8(text[0], first + rest);
      assert (first + rest)[|first|..] == rest;
      assert text == [text[0]] + text[1..];
    }
  }

  /** Decoding takes one character at a time. */
  lemma DecodeStep(s: Bytes, text: string) returns (n: nat)
    requires s != [] && Decode(s) == Some(text)
    ensures 0 < n <= |s| && text != "" && FirstScalar(s) == Some((text[0] as int, n)) && Decode(s[n..]) == Some(text[1..])
  {
    n := FirstScalar(s).value.1;
  }

  lemma {:induction false} Utf8OfDecoded(s: Bytes, text: string)
    requires Decode(s) == Some(text)
    ensures s == Utf8Text(text)
    decreases |s|
  {
    if s != [] {
      var n := DecodeStep(s, text);
      Utf8OfFirst(s, text[0] as int, n);
      Utf8OfDecoded(s[n..], text[1..]);
      assert s == s[..n] + s[n..];
    }
  }

  /** Bytes are accepted exactly if they are the UTF-8 form of a text, and then as that text. */
  lemma DecodeExactly(s: Bytes, text: string)
    ensures Decode(s) == Some(text) <==> s == Utf8Text(text)
  {
    DecodeUtf8(text);
    if Decode(s) == Some(text) {
      Utf8OfDecoded(s, text);
    }
  }

  /** The rule of the reader: no valid text or no usable length means no body. */
  function Announced(header: Bytes): nat {
    match Decode(header)
    case None => 0
    case Some(text) =>
      match FirstDeclared(Lines(text))
      case None => 0
      case Some(n) => n
  }

  // ---- What a written header announces -------------------------------------------------------

  /** Header lines with CR LF between them. */
  function Block(lines: seq<string>): string {
    if lines == [] then ""
    else if |lines| == 1 then lines[0]
    else lines[0] + ("\r\n" + Block(lines[1..]))
  }

  predicate HeaderLines(lines: seq<string>) {
    forall i :: 0 <= i < |lines| ==> lines[i] != "" && forall k :: 0 <= k < |lines[i]| ==> lines[i][k] != '\n'
  }

  lemma {:induction false} LinesOfBlock(lines: seq<string>)
    requires HeaderLines(lines)
    ensures Lines(Block(lines)) == lines
  {
    if |lines| == 1 {
      LineEndAt(lines[0], 0, |lines[0]|);
    } else if |lines| > 1 {
      FrontLine(lines[0], Block(lines[1..]));
      LinesOfBlock(lines[1..]);
    }
  }

  lemma {:induction false} FirstDeclaredAt(lines: seq<string>, i: nat)
    requires i < |lines| && Declared(lines[i]).Some? && forall k :: 0 <= k < i ==> Declared(lines[k]).None?
    ensures FirstDeclared(lines) == Declared(lines[i])
  {
    if i > 0 {
      FirstDeclaredAt(lines[1..], i - 1);
    }
  }

  lemma {:induction false} NoneDeclared(lines: seq<string>)
    requires forall k :: 0 <= k < |lines| ==> Declared(lines[k]).None?
    ensures FirstDeclared(lines) == None
  {
    if lines != [] {
      NoneDeclared(lines[1..]);
    }
  }

  /** The field in any letter case, with any white space around the number. */
  lemma DeclaredOf(name: string, before: string, n: nat, after: string)
    requires Lower(name) == Lower("Content-Length") && ':' !in name && n < 0x1_0000_0000_0000_0000
    requires AllSpace(before) && AllSpace(after)
    ensures Declared(name + ([':'] + (before + (Digits(n) + after)))) == Some(n)
  {
    var value := before + (Digits(n) + after);
    var line := name + ([':'] + value);
    ColonAt(line, 0, |name|);
    assert line[..|name|] == name && line[|name| + 1..] == value;
    assert Declared(line) == ParseSize(Trim(value));
    SizeOfDigits(before, n, after);
  }

  predicate AllSpace(s: string) { forall i :: 0 <= i < |s| ==> IsSpace(s[i]) }

  lemma SizeOfDigits(before: string, n: nat, after: string)
    requires n < 0x1_0000_0000_0000_0000 && AllSpace(before) && AllSpace(after)
    ensures ParseSize(Trim(before + (Digits(n) + after))) == Some(n)
  {
    TrimStartOf(before, Digits(n) + after);
    TrimEndOf(Digits(n), after);
    ValueOfDigits(n);
    SizeIs(Digits(n));
  }

  lemma {:induction false} TrimEndOf(word: string, spaces: string)
    requires AllSpace(spaces) && word != "" && !IsSpace(word[|word| - 1])
    ensures TrimEnd(word + spaces) == word
  {
    if spaces == "" {
      assert word + spaces == word;
    } else {
      var front := spaces[..|spaces| - 1];
      TrimEndOf(word, front);
      assert (word + spaces)[..|word + spaces| - 1] == word + front;
    }
  }

  lemma SizeIs(digits: string)
    requires digits != "" && AllDigits(digits) && Value(digits) < 0x1_0000_0000_0000_0000
    ensures ParseSize(digits) == Some(Value(digits))
  {
    assert IsDigit(digits[0]);
  }

  lemma {:induction false} ColonAt(s: string, i: nat, n: nat)
    requires i <= n < |s| && s[n] == ':' && forall k :: i <= k < n ==> s[k] != ':'
    ensures Colon(s, i) == Some(n)
    decreases n - i
  {
    if i < n {
      ColonAt(s, i + 1, n);
    }
  }

  lemma {:induction false} TrimStartOf(spaces: string, word: string)
    requires (forall i :: 0 <= i < |spaces| ==> IsSpace(spaces[i])) && word != "" && !IsSpace(word[0])
    ensures TrimStart(spaces + word) == word
  {
    if spaces != "" {
      TrimStartOf(spaces[1..], word);
      assert (spaces + word)[1..] == spaces[1..] + word;
    } else {
      assert spaces + word == word;
    }
  }

  /** A header announces what its first usable Content-Length line declares, and nothing without one. */
  lemma AnnouncedExactly(header: Bytes, text: string, i: nat)
    requires Decode(header) == Some(text)
    requires var lines := Lines(text);
             && i <= |lines| && (i < |lines| ==> Declared(lines[i]).Some?)
             && forall k :: 0 <= k < i ==> Declared(lines[k]).None?
    ensures Announced(header) == if i < |Lines(text)| then Declared(Lines(text)[i]).value else 0
  {
    if i < |Lines(text)| {
      FirstDeclaredAt(Lines(text), i);
    } else {
      NoneDeclared(Lines(text));
    }
  }

  /** Among lines of other names, one Content-Length line decides, wherever it stands. */
  lemma OneContentLength(header: Bytes, text: string, i: nat, name: string, before: string, n: nat, after: string)
    requires Decode(header) == Some(text) && i < |Lines(text)|
    requires Lower(name) == "content-length" && ':' !in name && AllSpace(before) && AllSpace(after)
    requires n < 0x1_0000_0000_0000_0000 && Lines(text)[i] == name + ([':'] + (before + (Digits(n) + after)))
    requires forall k :: 0 <= k < |Lines(text)| && k != i ==> OtherField(Lines(text)[k])
    ensures Announced(header) == n
  {
    LowerExactly(name, 0);
    DeclaredOf(name, before, n, after);
    forall k | 0 <= k < i
      ensures Declared(Lines(text)[k]).None?
    {
      OtherFieldsDeclareNothing(Lines(text)[k]);
    }
    AnnouncedExactly(header, text, i);
  }

  /** A header without a Content-Length line announces no body. */
  lemma NoContentLength(header: Bytes, text: string)
    requires Decode(header) == Some(text)
    requires forall k :: 0 <= k < |Lines(text)| ==> OtherField(Lines(text)[k])
    ensures Announced(header) == 0
  {
    var lines := Lines(text);
    forall k | 0 <= k < |lines|
      ensures Declared(lines[k]).None?
    {
      OtherFieldsDeclareNothing(lines[k]);
    }
    NoneDeclared(lines);
  }

  /** Nor does one that is not the UTF-8 form of any text. */
  lemma InvalidTextAnnouncesNothing(header: Bytes)
    requires forall text :: header != Utf8Text(text)
    ensures Announced(header) == 0
  {
    if Decode(header).Some? {
      Utf8OfDecoded(header, Decode(header).value);
    }
  }

  const END := "\r\n\r\n"

  predicate EndAt(s: string, k: nat) {
    k + 3 < |s| && s[k] == '\r' && s[k + 1] == '\n' && s[k + 2] == '\r' && s[k + 3] == '\n'
  }

  /** Lines that are not empty leave no early end of the header block. */
  lemma {:induction false} NoEarlyEnd(lines: seq<string>, k: nat)
    requires HeaderLines(lines) && k < |Block(lines)|
    ensures !EndAt(Block(lines) + END, k)
  {
    if |lines| > 1 {
      var line, rest := lines[0], Block(lines[1..]);
      BlockStart(lines[1..]);
      ConcatAssociative(line, "\r\n" + rest, END);
      ConcatAssociative("\r\n", rest, END);
      if k >= |line| + 2 {
        NoEarlyEnd(lines[1..], k - |line| - 2);
      }
      NoEndBefore(line, rest + END, k);
    }
  }

  lemma NoEndBefore(line: string, rest: string, k: nat)
    requires (forall i :: 0 <= i < |line| ==> line[i] != '\n') && |rest| > 1 && rest[1] != '\n'
    requires k >= |line| + 2 ==> !EndAt(rest, k - |line| - 2)
    ensures !EndAt(line + ("\r\n" + rest), k)
  {
    var text := line + ("\r\n" + rest);
    if k >= |line| + 2 {
      assert forall j :: 0 <= j < |rest| ==> text[|line| + 2 + j] == rest[j];
    } else if k == |line| {
      assert text[k + 3] == rest[1];
    }
  }

  /** A block of non-empty lines has no line end in its first two characters. */
  lemma BlockStart(lines: seq<string>)
    requires HeaderLines(lines) && lines != []
    ensures |Block(lines)| >= 1 && (Block(lines) + END)[1] != '\n'
  {
  }

  // ---- The end of a header block, in bytes and in characters ------------------------------------

  const STOP: Bytes := [CR, LF, CR, LF]

  /** Bytes below 0x80 at the start of a header and its end are the characters there. */
  lemma {:induction false} SameStart(header: Bytes, text: string, tail: Bytes, m: nat)
    requires Decode(header) == Some(text) && m <= 4
    requires forall i :: 0 <= i < m ==> (header + (STOP + tail))[i] < 0x80
    ensures m <= |text + END| && forall i :: 0 <= i < m ==> (header + (STOP + tail))[i] == (text + END)[i] as int
    decreases m
  {
    var s := header + (STOP + tail);
    if m > 0 && header != [] {
      assert s[0] == header[0];
      assert Decode(header[1..]) == Some(text[1..]) && text[0] as int == header[0];
      assert header[1..] + (STOP + tail) == s[1..];
      SameStart(header[1..], text[1..], tail, m - 1);
      assert (text + END)[1..] == text[1..] + END;
      forall i | 0 <= i < m
        ensures s[i] == (text + END)[i] as int
      {
        if i > 0 {
          assert s[i] == s[1..][i - 1] && (text + END)[i] == (text + END)[1..][i - 1];
        }
      }
    } else if m > 0 {
      assert text == "" && text + END == END;
      assert forall i :: 0 <= i < 4 ==> s[i] == STOP[i] && END[i] as int == STOP[i];
    }
  }

  /** A multi-byte character holds no byte below 0x80. */
  lemma WideScalar(header: Bytes)
    requires header != [] && FirstScalar(header).Some? && FirstScalar(header).value.1 > 1
    ensures var n := FirstScalar(header).value.1; n <= |header| && forall i :: 0 <= i < n ==> header[i] >= 0x80
  {
  }

  /** An end of the header block in the bytes is one in the text. */
  lemma {:induction false} EndInText(header: Bytes, text: string, tail: Bytes, k: nat) returns (j: nat)
    requires Decode(header) == Some(text) && k < |header| && DelimiterAt(header + (STOP + tail), k)
    ensures j < |text| && EndAt(text + END, j)
    decreases |header|
  {
    DecodeRest(header, text);
    var n := FirstScalar(header).value.1;
    assert (header + (STOP + tail))[k] == header[k];
    if k >= n {
      DropBytes(header, n, tail, k);
      var i := EndInText(header[n..], text[1..], tail, k - n);
      EndOneLater(text, i);
      j := i + 1;
    } else {
      EndHere(header, text, tail);
      j := 0;
    }
  }

  lemma EndHere(header: Bytes, text: string, tail: Bytes)
    requires Decode(header) == Some(text) && DelimiterAt(header + (STOP + tail), 0)
    ensures EndAt(text + END, 0)
  {
    SameStart(header, text, tail, 4);
  }

  /** The text behind its first character is what the bytes behind the first sequence decode to. */
  lemma DecodeRest(header: Bytes, text: string)
    requires header != [] && Decode(header) == Some(text)
    ensures FirstScalar(header).Some?
    ensures var n := FirstScalar(header).value.1; 0 < n <= |header| && text != "" && Decode(header[n..]) == Some(text[1..])
    ensures var n := FirstScalar(header).value.1; n > 1 ==> forall i :: 0 <= i < n ==> header[i] >= 0x80
  {
    if FirstScalar(header).value.1 > 1 {
      WideScalar(header);
    }
  }

  lemma DropBytes(header: Bytes, n: nat, tail: Bytes, k: nat)
    requires n <= k < |header| && DelimiterAt(header + (STOP + tail), k)
    ensures DelimiterAt(header[n..] + (STOP + tail), k - n)
  {
    assert header[n..] + (STOP + tail) == (header + (STOP + tail))[n..];
  }

  lemma EndOneLater(text: string, i: nat)
    requires text != "" && EndAt(text[1..] + END, i)
    ensures EndAt(text + END, i + 1)
  {
    assert (text + END)[1..] == text[1..] + END;
  }

  lemma HeaderEndOfBlock(header: Bytes, lines: seq<string>, tail: Bytes)
    requires HeaderLines(lines) && Decode(header) == Some(Block(lines))
    ensures HeaderEnd(header + (STOP + tail)) == Some(|header|)
  {
    var s := header + (STOP + tail);
    forall k: nat | k < |header|
      ensures !DelimiterAt(s, k)
    {
      if DelimiterAt(s, k) {
        var j := EndInText(header, Block(lines), tail, k);
        NoEarlyEnd(lines, j);
      }
    }
    HeaderEndIs(s, |header|);
  }

  lemma HeaderEndIs(s: Bytes, n: nat)
    requires DelimiterAt(s, n) && forall k: nat :: k < n ==> !DelimiterAt(s, k)
    ensures HeaderEnd(s) == Some(n)
  {
  }

  lemma FrontOfMessage(header: Bytes, end: Bytes, body: Bytes, rest: Bytes)
    ensures (header + (end + body)) + rest == header + (end + (body + rest))
    ensures ((header + (end + body)) + rest)[..|header|] == header
  {
    ConcatAssociative(header, end + body, rest);
    ConcatAssociative(end, body, rest);
  }

  lemma MessageAtFront(header: Bytes, end: Bytes, body: Bytes, rest: Bytes, bodyLen: BodyRule)
    requires |end| == 4 && bodyLen(header) == |body|
    requires HeaderEnd(header + (end + (body + rest))) == Some(|header|)
    ensures MessageLength(header + (end + body) + rest, bodyLen) == Some(|header| + 4 + |body|)
  {
    FrontOfMessage(header, end, body, rest);
  }

  /** Header lines in UTF-8 and a body of the length they declare are cut from the stream as one message. */
  lemma WrittenMessageIsFramed(header: Bytes, lines: seq<string>, i: nat, body: Bytes, rest: Bytes)
    requires HeaderLines(lines) && Decode(header) == Some(Block(lines))
    requires i < |lines| && Declared(lines[i]) == Some(|body|)
    requires forall k :: 0 <= k < i ==> Declared(lines[k]).None?
    ensures MessageLength(header + (STOP + body) + rest, Announced) == Some(|header| + 4 + |body|)
  {
    LinesOfBlock(lines);
    AnnouncedExactly(header, Block(lines), i);
    HeaderEndOfBlock(header, lines, body + rest);
    MessageAtFront(header, STOP, body, rest, Announced);
  }
}
