/** Building the SDP of a play or talk session, and the lossy parser that reads it back. */
module Sdp {
  import opened Lists
  import opened Text
  import opened Decimal

  datatype SdpInfo = SdpInfo(
    sessionName: Option<string>,
    connectionAddr: Option<string>,
    mediaPort: Option<nat>,
    mediaProto: Option<string>,
    mediaPayloads: seq<string>,
    ssrc: Option<string>,
    raw: string)

  function Empty(raw: string): SdpInfo { SdpInfo(None, None, None, None, [], None, raw) }

  // ---- Parsing ---------------------------------------------------------------------------

  /** Rust's parse::<u16>: digits, an optional plus sign, at most 65535. */
  function ParsePort(s: string): Option<nat> {
    var digits := if s != "" && s[0] == '+' then s[1..] else s;
    if digits != "" && AllDigits(digits) && Value(digits) < 0x1_0000 then Some(Value(digits)) else None
  }

  predicate HasPrefix(line: string, prefix: string) {
    |prefix| <= |line| && line[..|prefix|] == prefix
  }

  function LastWord(s: string): Option<string> {
    var words := Words(s);
    if words == [] then None else Some(words[|words| - 1])
  }

  function ReadMedia(info: SdpInfo, v: string): SdpInfo {
    var parts := Words(v);
    if |parts| < 3 then info
    else info.(mediaPort := ParsePort(parts[1]), mediaProto := Some(parts[2]), mediaPayloads := parts[3..])
  }

  function ReadLine(info: SdpInfo, line: string): SdpInfo {
    if HasPrefix(line, "s=") then info.(sessionName := Some(line[2..]))
    else if HasPrefix(line, "c=") then info.(connectionAddr := LastWord(line[2..]))
    else if HasPrefix(line, "m=") then ReadMedia(info, line[2..])
    else if HasPrefix(line, "y=") then info.(ssrc := Some(line[2..]))
    else info
  }

  function ReadLines(info: SdpInfo, lines: seq<string>): SdpInfo
    decreases |lines|
  {
    if lines == [] then info else ReadLines(ReadLine(info, Trim(lines[0])), lines[1..])
  }

  function Parsed(sdp: string): SdpInfo { ReadLines(Empty(sdp), Lines(sdp)) }

  /** A port is digits after an optional plus sign, with a value that fits 16 bits. */
  lemma ParsePortExactly(s: string, n: nat)
    ensures ParsePort(s) == Some(n) <==>
              exists digits :: (s == digits || s == ['+'] + digits) && digits != "" && AllDigits(digits) &&
                               Value(digits) == n && n <= 65535
  {
    if ParsePort(s) == Some(n) {
      var digits := if s[0] == '+' then s[1..] else s;
      assert s[0] == '+' ==> s == ['+'] + digits;
    }
    if digits :| (s == digits || s == ['+'] + digits) && digits != "" && AllDigits(digits) && Value(digits) == n && n <= 65535 {
      assert IsDigit(digits[0]);
      if s != digits {
        assert s[1..] == digits;
      }
    }
  }

  /** The line is a field with this one-letter tag. */
  predicate Tagged(line: string, tag: char) { |line| >= 2 && line[0] == tag && line[1] == '=' }

  predicate NoneTagged(lines: seq<string>, tag: char) {
    forall i :: 0 <= i < |lines| ==> !Tagged(Trim(lines[i]), tag)
  }

  predicate SameMedia(a: SdpInfo, b: SdpInfo) {
    a.mediaPort == b.mediaPort && a.mediaProto == b.mediaProto && a.mediaPayloads == b.mediaPayloads
  }

  /** What one line of any text changes. */
  lemma ReadLineExactly(info: SdpInfo, line: string)
    ensures var r := ReadLine(info, line);
            && r.raw == info.raw
            && r.sessionName == (if Tagged(line, 's') then Some(line[2..]) else info.sessionName)
            && r.connectionAddr == (if Tagged(line, 'c') then LastWord(line[2..]) else info.connectionAddr)
            && r.ssrc == (if Tagged(line, 'y') then Some(line[2..]) else info.ssrc)
            && (if Tagged(line, 'm') && |Words(line[2..])| > 2 then
                  && r.mediaPort == ParsePort(Words(line[2..])[1])
                  && r.mediaProto == Some(Words(line[2..])[2])
                  && r.mediaPayloads == Words(line[2..])[3..]
                else SameMedia(r, info))
  {
    if |line| >= 2 {
      assert line[..2] == [line[0], line[1]];
    }
    assert "s=" == ['s', '='] && "c=" == ['c', '='] && "m=" == ['m', '='] && "y=" == ['y', '='];
  }

  lemma {:induction false} UntaggedStays(info: SdpInfo, lines: seq<string>)
    ensures var r := ReadLines(info, lines);
            && (NoneTagged(lines, 's') ==> r.sessionName == info.sessionName)
            && (NoneTagged(lines, 'c') ==> r.connectionAddr == info.connectionAddr)
            && (NoneTagged(lines, 'y') ==> r.ssrc == info.ssrc)
            && (NoneTagged(lines, 'm') ==> SameMedia(r, info))
    decreases |lines|
  {
    if lines != [] {
      ReadLineExactly(info, Trim(lines[0]));
      UntaggedStays(ReadLine(info, Trim(lines[0])), lines[1..]);
    }
  }

  /** Of any text whatever, the last line with a tag is the one that counts. */
  lemma {:induction false} LastTaggedWins(info: SdpInfo, before: seq<string>, text: string, after: seq<string>)
    ensures var r, line := ReadLines(info, before + ([text] + after)), Trim(text);
            && (Tagged(line, 's') && NoneTagged(after, 's') ==> r.sessionName == Some(line[2..]))
            && (Tagged(line, 'c') && NoneTagged(after, 'c') ==> r.connectionAddr == LastWord(line[2..]))
            && (Tagged(line, 'y') && NoneTagged(after, 'y') ==> r.ssrc == Some(line[2..]))
            && (Tagged(line, 'm') && NoneTagged(after, 'm') && |Words(line[2..])| > 2 ==>
                  && r.mediaPort == ParsePort(Words(line[2..])[1])
                  && r.mediaProto == Some(Words(line[2..])[2])
                  && r.mediaPayloads == Words(line[2..])[3..])
    decreases |before|
  {
    var all := before + ([text] + after);
    if before == [] {
      assert all == [text] + after && all[1..] == after;
      ReadLineExactly(info, Trim(text));
      UntaggedStays(ReadLine(info, Trim(text)), after);
    } else {
      assert all[1..] == before[1..] + ([text] + after);
      LastTaggedWins(ReadLine(info, Trim(before[0])), before[1..], text, after);
    }
  }

  /** The parser: one pass over the lines, updating what it has read so far. */
  method ParseLossy(sdp: string) returns (out: SdpInfo)
    ensures out == Parsed(sdp)
  {
    out := Empty(sdp);
    var lines := Lines(sdp);
    for i := 0 to |lines|
      invariant ReadLines(out, lines[i..]) == Parsed(sdp)
    {
      assert lines[i..][0] == lines[i] && lines[i..][1..] == lines[i + 1..];
      var line := Trim(lines[i]);
      if HasPrefix(line, "s=") {
        out := out.(sessionName := Some(line[2..]));
      } else if HasPrefix(line, "c=") {
        out := out.(connectionAddr := LastWord(line[2..]));
      } else if HasPrefix(line, "m=") {
        var parts := Words(line[2..]);
        if |parts| >= 3 {
          out := out.(mediaPort := ParsePort(parts[1]), mediaProto := Some(parts[2]), mediaPayloads := parts[3..]);
        }
      } else if HasPrefix(line, "y=") {
        out := out.(ssrc := Some(line[2..]));
      }
    }
  }

  // ---- Building ----------------------------------------------------------------------------

  datatype Codec = G711A | G711U | L16

  datatype Mode = SendRecv | SendOnly | RecvOnly

  /** A play session, or a talk session with its codec and mode. */
  datatype Kind = Play | Talk(codec: Codec, mode: Mode)

  datatype Options = Options(kind: Kind, ip: string, port: nat, ssrc: nat, payloadType: nat)

  /** The widths of the source's fields: u16, u32 and u8. */
  predicate InWidth(o: Options) {
    o.port < 0x1_0000 && o.ssrc < 0x1_0000_0000 && o.payloadType < 0x100
  }

  function FormatSsrc(ssrc: nat): string { Padded(ssrc, 10) }

  function SessionName(kind: Kind): string { if kind.Play? then "Play" else "Talk" }

  function Media(kind: Kind): string { if kind.Play? then "video" else "audio" }

  function Direction(kind: Kind): string {
    match kind
    case Play => "recvonly"
    case Talk(_, SendRecv) => "sendrecv"
    case Talk(_, SendOnly) => "sendonly"
    case Talk(_, RecvOnly) => "recvonly"
  }

  function Encoding(kind: Kind): string {
    match kind
    case Play => "PS/90000"
    case Talk(G711A, _) => "PCMA/8000"
    case Talk(G711U, _) => "PCMU/8000"
    case Talk(L16, _) => "L16/8000/1"
  }

  function OriginLine(o: Options): string { "o=" + FormatSsrc(o.ssrc) + " 0 0 IN IP4 " + o.ip }

  function ConnectionLine(o: Options): string { "c=" + ("IN" + (" " + ("IP4" + (" " + o.ip)))) }

  function MediaLine(o: Options): string {
    "m=" + (Media(o.kind) + (" " + (Digits(o.port) + (" " + ("RTP/AVP" + (" " + Digits(o.payloadType)))))))
  }

  function RtpMapLine(o: Options): string { "a=rtpmap:" + Digits(o.payloadType) + " " + Encoding(o.kind) }

  function NameLines(o: Options): seq<string> { ["v=0", OriginLine(o), "s=" + SessionName(o.kind)] }

  function AddressLines(o: Options): seq<string> { [ConnectionLine(o), "t=0 0", MediaLine(o)] }

  function SsrcLines(o: Options): seq<string> {
    ["a=" + Direction(o.kind), RtpMapLine(o), "y=" + FormatSsrc(o.ssrc)]
  }

  function SdpLines(o: Options): seq<string> { NameLines(o) + AddressLines(o) + SsrcLines(o) }

  function Render(lines: seq<string>): string {
    if lines == [] then "" else lines[0] + ("\r\n" + Render(lines[1..]))
  }

  function Build(o: Options): string { Render(SdpLines(o)) }

  /** The text of a play session, line by line. */
  lemma PlayText(o: Options)
    requires o.kind == Play
    ensures SdpLines(o) ==
            ["v=0",
             "o=" + Padded(o.ssrc, 10) + " 0 0 IN IP4 " + o.ip,
             "s=Play",
             "c=IN IP4 " + o.ip,
             "t=0 0",
             "m=video " + Digits(o.port) + " RTP/AVP " + Digits(o.payloadType),
             "a=recvonly",
             "a=rtpmap:" + Digits(o.payloadType) + " PS/90000",
             "y=" + Padded(o.ssrc, 10)]
  {
    ConnectionText(o);
    MediaText(o, "video");
    RtpMapText(o);
    assert "m=" + "video" + " " == "m=video " && "s=" + "Play" == "s=Play" && "a=" + "recvonly" == "a=recvonly";
    assert " " + "PS/90000" == " PS/90000";
  }

  /** The text of a talk session, line by line, for each codec and mode. */
  lemma TalkText(o: Options, codec: Codec, mode: Mode)
    requires o.kind == Talk(codec, mode)
    ensures SdpLines(o) ==
            ["v=0",
             "o=" + Padded(o.ssrc, 10) + " 0 0 IN IP4 " + o.ip,
             "s=Talk",
             "c=IN IP4 " + o.ip,
             "t=0 0",
             "m=audio " + Digits(o.port) + " RTP/AVP " + Digits(o.payloadType),
             (if mode == SendRecv then "a=sendrecv" else if mode == SendOnly then "a=sendonly" else "a=recvonly"),
             "a=rtpmap:" + Digits(o.payloadType) +
               (if codec == G711A then " PCMA/8000" else if codec == G711U then " PCMU/8000" else " L16/8000/1"),
             "y=" + Padded(o.ssrc, 10)]
  {
    ConnectionText(o);
    MediaText(o, "audio");
    RtpMapText(o);
    assert "m=" + "audio" + " " == "m=audio " && "s=" + "Talk" == "s=Talk";
    DirectionText(codec, mode);
    EncodingText(codec, mode);
  }

  lemma DirectionText(codec: Codec, mode: Mode)
    ensures "a=" + Direction(Talk(codec, mode))
         == if mode == SendRecv then "a=sendrecv" else if mode == SendOnly then "a=sendonly" else "a=recvonly"
  {
    assert "a=" + "sendrecv" == "a=sendrecv" && "a=" + "sendonly" == "a=sendonly" && "a=" + "recvonly" == "a=recvonly";
  }

  lemma EncodingText(codec: Codec, mode: Mode)
    ensures " " + Encoding(Talk(codec, mode))
         == if codec == G711A then " PCMA/8000" else if codec == G711U then " PCMU/8000" else " L16/8000/1"
  {
    assert " " + "PCMA/8000" == " PCMA/8000" && " " + "PCMU/8000" == " PCMU/8000" && " " + "L16/8000/1" == " L16/8000/1";
  }

  lemma ConnectionText(o: Options)
    ensures ConnectionLine(o) == "c=IN IP4 " + o.ip
  {
    assert "c=" + ("IN" + (" " + ("IP4" + " "))) == "c=IN IP4 ";
  }

  lemma MediaText(o: Options, media: string)
    requires Media(o.kind) == media
    ensures MediaLine(o) == ("m=" + media + " ") + Digits(o.port) + " RTP/AVP " + Digits(o.payloadType)
  {
  }

  lemma RtpMapText(o: Options)
    ensures RtpMapLine(o) == "a=rtpmap:" + Digits(o.payloadType) + (" " + Encoding(o.kind))
  {
  }

  // ---- Lines of the built text -----------------------------------------------------------------

  predicate NoBreak(line: string) {
    forall i :: 0 <= i < |line| ==> line[i] != '\n'
  }

  lemma {:induction false} LinesOfRender(lines: seq<string>)
    requires forall i :: 0 <= i < |lines| ==> NoBreak(lines[i])
    ensures Lines(Render(lines)) == lines
  {
    if lines != [] {
      FrontLine(lines[0], Render(lines[1..]));
      LinesOfRender(lines[1..]);
    }
  }

  /** A line that trimming leaves alone and that stays one line. */
  predicate Solid(line: string) {
    line != "" && !IsSpace(line[0]) && !IsSpace(line[|line| - 1]) && NoBreak(line)
  }

  lemma TrimSolid(line: string)
    requires Solid(line)
    ensures Trim(line) == line
  {
  }

  lemma SolidConcat(a: string, b: string)
    requires a != "" && !IsSpace(a[0]) && NoBreak(a) && b != "" && !IsSpace(b[|b| - 1]) && NoBreak(b)
    ensures Solid(a + b)
  {
  }

  lemma WordIsSolid(word: string)
    requires IsWord(word)
    ensures Solid(word)
  {
  }

  lemma DigitsAreWord(digits: string)
    requires AllDigits(digits) && digits != ""
    ensures IsWord(digits) && Solid(digits)
  {
  }

  lemma OriginIsSolid(o: Options)
    requires IsWord(o.ip)
    ensures Solid(OriginLine(o))
  {
    DigitsAreWord(FormatSsrc(o.ssrc));
    WordIsSolid(o.ip);
    SolidConcat("o=" + FormatSsrc(o.ssrc) + " 0 0 IN IP4 ", o.ip);
  }

  lemma ConnectionIsSolid(ip: string)
    requires IsWord(ip)
    ensures Solid("c=" + ("IN" + (" " + ("IP4" + (" " + ip)))))
  {
    WordIsSolid(ip);
    SolidConcat("IP4" + " ", ip);
    assert ("IP4" + " ") + ip == "IP4" + (" " + ip);
    var tail := "IP4" + (" " + ip);
    SolidConcat("IN" + " ", tail);
    assert ("IN" + " ") + tail == "IN" + (" " + tail);
    SolidConcat("c=", "IN" + (" " + tail));
  }

  lemma RtpMapIsSolid(o: Options)
    ensures Solid(RtpMapLine(o))
  {
    DigitsAreWord(Digits(o.payloadType));
    SolidConcat("a=rtpmap:" + Digits(o.payloadType) + " ", Encoding(o.kind));
  }

  lemma ShortLinesAreSolid(o: Options)
    ensures Solid("v=0") && Solid("t=0 0") && Solid("s=" + SessionName(o.kind)) && Solid("a=" + Direction(o.kind))
    ensures Solid("y=" + FormatSsrc(o.ssrc))
  {
    DigitsAreWord(FormatSsrc(o.ssrc));
    SolidConcat("y=", FormatSsrc(o.ssrc));
    SolidConcat("s=", SessionName(o.kind));
    SolidConcat("a=", Direction(o.kind));
  }

  predicate AllSolid(lines: seq<string>) {
    forall i :: 0 <= i < |lines| ==> Solid(lines[i])
  }

  lemma BuiltLinesAreSolid(o: Options)
    requires IsWord(o.ip)
    ensures AllSolid(SdpLines(o))
  {
    BlocksAreSolid(o);
    AllSolidConcat(NameLines(o), AddressLines(o));
    AllSolidConcat(NameLines(o) + AddressLines(o), SsrcLines(o));
  }

  lemma BlocksAreSolid(o: Options)
    requires IsWord(o.ip)
    ensures AllSolid(NameLines(o)) && AllSolid(AddressLines(o)) && AllSolid(SsrcLines(o))
  {
    OriginIsSolid(o);
    ConnectionIsSolid(o.ip);
    DigitsAreWord(Digits(o.port));
    DigitsAreWord(Digits(o.payloadType));
    MediaIsSolid(Media(o.kind), Digits(o.port), Digits(o.payloadType));
    RtpMapIsSolid(o);
    ShortLinesAreSolid(o);
  }

  lemma AllSolidConcat(a: seq<string>, b: seq<string>)
    requires AllSolid(a) && AllSolid(b)
    ensures AllSolid(a + b)
  {
  }

  lemma MediaIsSolid(media: string, port: string, payload: string)
    requires Solid(media) && Solid(port) && Solid(payload)
    ensures Solid("m=" + (media + (" " + (port + (" " + ("RTP/AVP" + (" " + payload)))))))
  {
    SolidConcat("RTP/AVP" + " ", payload);
    assert ("RTP/AVP" + " ") + payload == "RTP/AVP" + (" " + payload);
    var tail := "RTP/AVP" + (" " + payload);
    SolidConcat(port + " ", tail);
    assert (port + " ") + tail == port + (" " + tail);
    var longer := port + (" " + tail);
    SolidConcat(media + " ", longer);
    assert (media + " ") + longer == media + (" " + longer);
    SolidConcat("m=", media + (" " + longer));
  }

  // ---- Reading the built lines ------------------------------------------------------------------

  lemma ReadOther(info: SdpInfo, line: string)
    requires line != "" && line[0] !in {'s', 'c', 'm', 'y'}
    ensures ReadLine(info, line) == info
  {
    assert forall p: string :: HasPrefix(line, p) && p != "" ==> line[..|p|][0] == p[0] == line[0];
  }

  lemma ReadTagged(info: SdpInfo, v: string)
    ensures ReadLine(info, "s=" + v) == info.(sessionName := Some(v))
    ensures ReadLine(info, "c=" + v) == info.(connectionAddr := LastWord(v))
    ensures ReadLine(info, "m=" + v) == ReadMedia(info, v)
    ensures ReadLine(info, "y=" + v) == info.(ssrc := Some(v))
  {
    assert ("s=" + v)[..2] == "s=" && ("s=" + v)[2..] == v;
    assert ("c=" + v)[..2] == "c=" && ("c=" + v)[2..] == v;
    assert ("m=" + v)[..2] == "m=" && ("m=" + v)[2..] == v;
    assert ("y=" + v)[..2] == "y=" && ("y=" + v)[2..] == v;
    assert "s="[0] == 's' && "c="[0] == 'c' && "m="[0] == 'm' && "y="[0] == 'y';
  }

  lemma ReadAt(info: SdpInfo, lines: seq<string>, k: nat)
    requires k < |lines| && Solid(lines[k])
    ensures ReadLines(info, lines[k..]) == ReadLines(ReadLine(info, lines[k]), lines[k + 1..])
  {
    TrimSolid(lines[k]);
    assert lines[k..][0] == lines[k] && lines[k..][1..] == lines[k + 1..];
  }

  lemma ConnectionWords(ip: string)
    requires IsWord(ip)
    ensures LastWord("IN" + (" " + ("IP4" + (" " + ip)))) == Some(ip)
  {
    WordsLast(ip);
    WordsCons("IP4", ip);
    WordsCons("IN", "IP4" + (" " + ip));
  }

  lemma MediaWords(media: string, port: string, payload: string)
    requires IsWord(media) && IsWord(port) && IsWord(payload)
    ensures Words(media + (" " + (port + (" " + ("RTP/AVP" + (" " + payload)))))) == [media, port, "RTP/AVP", payload]
  {
    var tail := "RTP/AVP" + (" " + payload);
    WordsLast(payload);
    WordsCons("RTP/AVP", payload);
    WordsCons(port, tail);
    WordsCons(media, port + (" " + tail));
  }

  lemma ParsePortOfDigits(port: nat)
    requires port < 0x1_0000
    ensures ParsePort(Digits(port)) == Some(port)
  {
    ValueOfDigits(port);
  }

  /** What the parser should find in a built description. */
  function Expected(o: Options): SdpInfo {
    SdpInfo(Some(SessionName(o.kind)), Some(o.ip), Some(o.port), Some("RTP/AVP"), [Digits(o.payloadType)],
            Some(FormatSsrc(o.ssrc)), Build(o))
  }

  lemma MediaIsRead(info: SdpInfo, o: Options)
    requires InWidth(o)
    ensures ReadLine(info, MediaLine(o))
         == info.(mediaPort := Some(o.port), mediaProto := Some("RTP/AVP"), mediaPayloads := [Digits(o.payloadType)])
  {
    var port, payload := Digits(o.port), Digits(o.payloadType);
    var v := Media(o.kind) + (" " + (port + (" " + ("RTP/AVP" + (" " + payload)))));
    DigitsAreWord(port);
    DigitsAreWord(payload);
    MediaWords(Media(o.kind), port, payload);
    ParsePortOfDigits(o.port);
    ReadTagged(info, v);
  }

  /** Reading solid lines is reading each in turn. */
  lemma ReadSolid(info: SdpInfo, lines: seq<string>, rest: seq<string>)
    requires |lines| == 3 && AllSolid(lines)
    ensures ReadLines(info, lines + rest) == ReadLines(ReadThree(info, lines), rest)
  {
    var all := lines + rest;
    assert all[0..] == all && all[3..] == rest;
    ReadAt(info, all, 0);
    ReadAt(ReadLine(info, lines[0]), all, 1);
    ReadAt(ReadLine(ReadLine(info, lines[0]), lines[1]), all, 2);
  }

  function ReadThree(info: SdpInfo, lines: seq<string>): SdpInfo
    requires |lines| == 3
  {
    ReadLine(ReadLine(ReadLine(info, lines[0]), lines[1]), lines[2])
  }

  lemma NameIsRead(info: SdpInfo, o: Options)
    ensures ReadThree(info, NameLines(o))
         == info.(sessionName := Some(SessionName(o.kind)))
  {
    ReadOther(info, "v=0");
    ReadOther(info, OriginLine(o));
    ReadTagged(info, SessionName(o.kind));
  }

  lemma AddressIsRead(info: SdpInfo, o: Options)
    requires InWidth(o) && IsWord(o.ip)
    ensures ReadThree(info, AddressLines(o))
         == info.(connectionAddr := Some(o.ip), mediaPort := Some(o.port), mediaProto := Some("RTP/AVP"),
                  mediaPayloads := [Digits(o.payloadType)])
  {
    ReadTagged(info, "IN" + (" " + ("IP4" + (" " + o.ip))));
    ConnectionWords(o.ip);
    var next := info.(connectionAddr := Some(o.ip));
    ReadOther(next, "t=0 0");
    MediaIsRead(next, o);
  }

  lemma SsrcIsRead(info: SdpInfo, o: Options)
    ensures ReadThree(info, SsrcLines(o))
         == info.(ssrc := Some(FormatSsrc(o.ssrc)))
  {
    ReadOther(info, "a=" + Direction(o.kind));
    ReadOther(info, RtpMapLine(o));
    ReadTagged(info, FormatSsrc(o.ssrc));
  }

  lemma BuiltIsRead(o: Options)
    requires InWidth(o) && IsWord(o.ip)
    ensures ReadLines(Empty(Build(o)), SdpLines(o)) == Expected(o)
  {
    var i0 := Empty(Build(o));
    var i1 := ReadThree(i0, NameLines(o));
    var i2 := ReadThree(i1, AddressLines(o));
    BlocksAreSolid(o);
    ConcatAssociative(NameLines(o), AddressLines(o), SsrcLines(o));
    ReadSolid(i0, NameLines(o), AddressLines(o) + SsrcLines(o));
    ReadSolid(i1, AddressLines(o), SsrcLines(o));
    ReadSolid(i2, SsrcLines(o), []);
    assert SsrcLines(o) + [] == SsrcLines(o);
    NameIsRead(i0, o);
    AddressIsRead(i1, o);
    SsrcIsRead(i2, o);
  }

  lemma RoundTrip(o: Options)
    requires InWidth(o) && IsWord(o.ip)
    ensures Parsed(Build(o)) == Expected(o)
  {
    BuiltLinesAreSolid(o);
    LinesOfRender(SdpLines(o));
    BuiltIsRead(o);
  }

  /** The address the parser reports is always a word. */
  lemma {:induction false} AddressIsWord(info: SdpInfo, lines: seq<string>)
    requires info.connectionAddr.Some? ==> IsWord(info.connectionAddr.value)
    ensures var addr := ReadLines(info, lines).connectionAddr; addr.Some? ==> IsWord(addr.value)
    decreases |lines|
  {
    if lines != [] {
      AddressIsWord(ReadLine(info, Trim(lines[0])), lines[1..]);
    }
  }

  /** Parsing a built description recovers what it was built from exactly when the address is one word. */
  lemma RoundTripExactly(o: Options)
    requires InWidth(o)
    ensures Parsed(Build(o)) == Expected(o) <==> IsWord(o.ip)
  {
    if IsWord(o.ip) {
      RoundTrip(o);
    }
    AddressIsWord(Empty(Build(o)), Lines(Build(o)));
  }

  /** The ssrc text has ten digits, and they write the given number. */
  lemma SsrcIsTenDigits(ssrc: nat)
    requires ssrc < 0x1_0000_0000
    ensures |FormatSsrc(ssrc)| == 10 && AllDigits(FormatSsrc(ssrc)) && Value(FormatSsrc(ssrc)) == ssrc
  {
    assert PowerOfTen(10) == 10000000000 by {
      assert PowerOfTen(5) == 100000;
    }
    DigitsLength(ssrc, 10);
    ValueOfPadded(ssrc, 10);
  }

  /** An address of two words is one that is not recovered. */
  lemma SpacedAddressIsLost(kind: Kind)
    ensures var o := Options(kind, "10.0.0.1 x", 5060, 1, 96);
            InWidth(o) && Parsed(Build(o)).connectionAddr != Some(o.ip)
  {
    var o := Options(kind, "10.0.0.1 x", 5060, 1, 96);
    AddressIsWord(Empty(Build(o)), Lines(Build(o)));
    assert IsSpace(o.ip[8]);
  }
}
