/**
 What the lines of a session description say, in terms of their text.
 */
module SdpLines {
  import opened Values
  import opened Numbers
  import opened Text
  import opened SdpRid
  import opened SdpFmtp
  import opened SdpSimulcast
  import SdpRidText
  import opened SdpScan

  // ----- which reader -----------------------------------------------------------------------

  lemma DirectionText(d: string)
    requires IsDirection(d)
    ensures ':' !in d && d[0] != '='
  {
  }

  /** An attribute with a value is not a direction. */
  lemma NamedAttribute(line: string, prefix: string)
    requires StartsWith(line, prefix) && |prefix| > 2 && prefix[0] == 'a' && prefix[1] == '=' && prefix[|prefix| - 1] == ':'
    ensures !StartsWith(line, "m=") && !IsDirection(line[2..]) && line == prefix + line[|prefix|..]
  {
    assert line[0] == prefix[0] && line[|prefix| - 1] == ':';
    assert line[2..][|prefix| - 3] == ':';
    if IsDirection(line[2..]) {
      DirectionText(line[2..]);
    }
  }

  lemma PrefixAt(line: string, p: string, i: nat)
    requires StartsWith(line, p) && i < |p|
    ensures line[i] == p[i]
  {
    assert line[..|p|][i] == line[i];
  }

  /** Two prefixes of one line. */
  lemma OnePrefix(line: string, p: string, q: string, i: nat)
    requires StartsWith(line, p) && i < |p| && i < |q| && p[i] != q[i]
    ensures !StartsWith(line, q)
  {
    PrefixAt(line, p, i);
    if StartsWith(line, q) {
      PrefixAt(line, q, i);
    }
  }

  lemma MediaRead(line: string)
    ensures ItemOf(line).Media? <==> StartsWith(line, "m=")
    ensures StartsWith(line, "m=") ==> ItemOf(line) == MediaOf(line)
  {
  }

  /** The four direction lines. */
  lemma DirectionIff(line: string, d: string)
    ensures ItemOf(line) == Direction(d) <==>
              line == "a=" + d && (d == "sendrecv" || d == "sendonly" || d == "recvonly" || d == "inactive")
  {
    DirectionDispatch(line);
    WholeLine(line, d);
  }

  lemma RtpMapRead(line: string)
    ensures StartsWith(line, "a=rtpmap:") ==> ItemOf(line) == RtpMapOf(line)
    ensures !StartsWith(line, "a=rtpmap:") ==> !ItemOf(line).RtpMap?
  {
    if StartsWith(line, "a=rtpmap:") {
      NamedAttribute(line, "a=rtpmap:");
    }
  }

  lemma FmtpRead(line: string)
    ensures StartsWith(line, "a=fmtp:") ==> ItemOf(line) == FmtpLineOf(line)
    ensures !StartsWith(line, "a=fmtp:") ==> !ItemOf(line).FmtpLine?
  {
    if StartsWith(line, "a=fmtp:") {
      NamedAttribute(line, "a=fmtp:");
      OnePrefix(line, "a=fmtp:", "a=rtpmap:", 2);
    }
  }

  lemma FeedbackRead(line: string)
    ensures StartsWith(line, "a=rtcp-fb:") ==> ItemOf(line) == FeedbackOf(line)
    ensures !StartsWith(line, "a=rtcp-fb:") ==> !ItemOf(line).Feedback?
  {
    if StartsWith(line, "a=rtcp-fb:") {
      NamedAttribute(line, "a=rtcp-fb:");
      OnePrefix(line, "a=rtcp-fb:", "a=rtpmap:", 4);
      OnePrefix(line, "a=rtcp-fb:", "a=fmtp:", 2);
    }
  }

  lemma ExtmapRead(line: string)
    ensures StartsWith(line, "a=extmap:") ==> ItemOf(line) == ExtmapOf(line)
    ensures !StartsWith(line, "a=extmap:") ==> !ItemOf(line).ExtmapLine?
  {
    if StartsWith(line, "a=extmap:") {
      NamedAttribute(line, "a=extmap:");
      OnePrefix(line, "a=extmap:", "a=rtpmap:", 2);
      OnePrefix(line, "a=extmap:", "a=fmtp:", 2);
      OnePrefix(line, "a=extmap:", "a=rtcp-fb:", 2);
    }
  }

  lemma RidRead(line: string)
    ensures StartsWith(line, "a=rid:") ==> ItemOf(line) == var r := RidOf(line); if r.Ok? then RidLine(r.value) else Other
    ensures !StartsWith(line, "a=rid:") ==> !ItemOf(line).RidLine?
  {
    if StartsWith(line, "a=rid:") {
      NamedAttribute(line, "a=rid:");
      OnePrefix(line, "a=rid:", "a=rtpmap:", 3);
      OnePrefix(line, "a=rid:", "a=fmtp:", 2);
      OnePrefix(line, "a=rid:", "a=rtcp-fb:", 3);
      OnePrefix(line, "a=rid:", "a=extmap:", 2);
    }
  }

  lemma SimulcastRead(line: string)
    ensures StartsWith(line, "a=simulcast:") ==>
              ItemOf(line) == var s := SimulcastOf(line); if s.Ok? then SimulcastLine(s.value) else Other
    ensures !StartsWith(line, "a=simulcast:") ==> !ItemOf(line).SimulcastLine?
  {
    if StartsWith(line, "a=simulcast:") {
      NamedAttribute(line, "a=simulcast:");
      OnePrefix(line, "a=simulcast:", "a=rtpmap:", 2);
      OnePrefix(line, "a=simulcast:", "a=fmtp:", 2);
      OnePrefix(line, "a=simulcast:", "a=rtcp-fb:", 2);
      OnePrefix(line, "a=simulcast:", "a=extmap:", 2);
      OnePrefix(line, "a=simulcast:", "a=rid:", 2);
    }
  }

  // ----- restrictions and simulcast ---------------------------------------------------------

  /** The line gives the restriction r. */
  ghost predicate Restricts(line: string, r: Rid) {
    StartsWith(line, "a=rid:") && SdpRidText.SpellsRid(line[6..], r)
  }

  lemma {:induction false} RidLineIff(line: string, r: Rid)
    ensures ItemOf(line) == RidLine(r) <==> Restricts(line, r)
  {
    RidRead(line);
    if StartsWith(line, "a=rid:") {
      NamedAttribute(line, "a=rid:");
      SdpRidText.RidIff(line[6..], r);
    }
  }

  ghost predicate OffersStreams(line: string, v: Simulcast) {
    StartsWith(line, "a=simulcast:") && SpellsSimulcast(Fields(line[12..]), v)
  }

  lemma {:induction false} SimulcastLineIff(line: string, v: Simulcast)
    ensures ItemOf(line) == SimulcastLine(v) <==> OffersStreams(line, v)
  {
    SimulcastRead(line);
    if StartsWith(line, "a=simulcast:") {
      NamedAttribute(line, "a=simulcast:");
      SimulcastBody(line, line[12..], v);
    }
  }

  lemma {:induction false} SimulcastBody(line: string, body: string, v: Simulcast)
    requires line == "a=simulcast:" + body
    ensures SimulcastOf(line) == Ok(v) <==> SpellsSimulcast(Fields(body), v)
  {
    SimulcastIff(body, v);
  }

  // ----- media lines ------------------------------------------------------------------------

  /** The words of a media line. */
  function MediaWords(line: string): seq<string> {
    if StartsWith(line, "m=") then Fields(line[2..]) else []
  }

  /** The part of a port before the first slash has a character other than zero. */
  ghost predicate Open(port: string) {
    exists i :: 0 <= i < |port| && port[i] != '0' && '/' !in port[..i + 1]
  }

  lemma NotAmong(s: string, c: char, n: nat)
    requires n <= |s| && c !in s[..n]
    ensures forall j | 0 <= j < n :: s[j] != c
  {
    forall j | 0 <= j < n
      ensures s[j] != c
    {
      assert s[..n][j] == s[j];
    }
  }

  lemma PortOpen(port: string)
    ensures Open(port) <==> !AllZeros(Cut(port, '/').0)
  {
    var first := Cut(port, '/').0;
    assert first == port[..|first|];
    if !AllZeros(first) {
      var i :| 0 <= i < |first| && first[i] != '0';
      assert port[i] != '0' && '/' !in port[..i + 1];
    }
    if Open(port) {
      var i :| 0 <= i < |port| && port[i] != '0' && '/' !in port[..i + 1];
      NotAmong(port, '/', i + 1);
      assert first[i] == port[i];
    }
  }

  /** A media line with at least four words: its kind, its port, its protocol and its payload types. */
  lemma MediaIff(line: string, m: MediaLine)
    ensures ItemOf(line) == Media(m) <==>
              && StartsWith(line, "m=")
              && var ws := Fields(line[2..]);
                 if |ws| < 4 then m == MediaLine("", false, {})
                 else
                   && m.kind == ws[0] && (m.active <==> Open(ws[1]))
                   && forall pt :: pt in m.payloadTypes <==> exists i :: 3 <= i < |ws| && ws[i] == pt
  {
    MediaRead(line);
    if StartsWith(line, "m=") {
      var ws := Fields(line[2..]);
      if |ws| >= 4 {
        PortOpen(ws[1]);
        var pts := set i | 3 <= i < |ws| :: ws[i];
        if forall pt :: pt in m.payloadTypes <==> exists i :: 3 <= i < |ws| && ws[i] == pt {
          assert m.payloadTypes == pts;
        }
      }
    }
  }

  /** A media line put together from its words. */
  lemma MediaLineReads(kind: string, port: string, proto: string, pts: seq<string>, m: MediaLine)
    requires AreWords([kind, port, proto] + pts) && pts != []
    requires m.kind == kind && (m.active <==> Open(port)) && forall pt :: pt in m.payloadTypes <==> pt in pts
    ensures ItemOf("m=" + Join([kind, port, proto] + pts, ' ')) == Media(m)
  {
    var ws := [kind, port, proto] + pts;
    var line := "m=" + Join(ws, ' ');
    assert line[..2] == "m=" && line[2..] == Join(ws, ' ');
    FieldsJoin(ws);
    forall pt
      ensures pt in m.payloadTypes <==> exists i :: 3 <= i < |ws| && ws[i] == pt
    {
      if pt in pts {
        var k :| 0 <= k < |pts| && pts[k] == pt;
        assert ws[k + 3] == pt;
      }
    }
    MediaIff(line, m);
  }

  // ----- payload formats --------------------------------------------------------------------

  /** A payload type number. */
  predicate Number(pt: string) {
    pt != "" && (forall i | 0 <= i < |pt| :: '0' <= pt[i] <= '9') && Decimal(pt) <= 127
  }

  /** av1, in capitals or not. */
  predicate SpellsAv1(enc: string) {
    |enc| == 3 && (enc[0] == 'a' || enc[0] == 'A') && (enc[1] == 'v' || enc[1] == 'V') && enc[2] == '1'
  }

  lemma Av1Lower(enc: string)
    ensures ToLower(enc) == "av1" <==> SpellsAv1(enc)
  {
    if |enc| == 3 {
      LowerIs(enc, 0);
      LowerIs(enc, 1);
      LowerIs(enc, 2);
    }
  }

  /** The name av1, a slash, and 90000. */
  ghost predicate Av1At90kHz(word: string) {
    exists enc, clock :: && word == enc + ['/'] + clock && '/' !in enc && '/' !in clock
                         && SpellsAv1(enc) && Atoi(clock) == Some(90000)
  }

  /** The line binds the payload type to AV1 at 90 kHz. */
  ghost predicate Binds(line: string, pt: string) {
    && StartsWith(line, "a=rtpmap:") && Number(pt)
    && exists word :: Fields(line[9..]) == [pt, word] && Av1At90kHz(word)
  }

  lemma EncodingIff(word: string)
    ensures var parts := Split(word, '/');
            Av1At90kHz(word) <==> |parts| == 2 && ToLower(parts[0]) == "av1" && Atoi(parts[1]) == Some(90000)
  {
    var parts := Split(word, '/');
    if |parts| == 2 {
      assert parts == [parts[0], parts[1]];
      SplitTwo(word, '/', parts[0], parts[1]);
      Av1Lower(parts[0]);
    }
    if enc, clock :| && word == enc + ['/'] + clock && '/' !in enc && '/' !in clock
                     && SpellsAv1(enc) && Atoi(clock) == Some(90000) {
      SplitTwo(word, '/', enc, clock);
      Av1Lower(enc);
    }
  }

  lemma RtpMapFields(line: string)
    requires StartsWith(line, "a=rtpmap:")
    ensures Fields(AfterPrefix(Trim(line), "a=rtpmap:")) == Fields(line[9..])
  {
    AttributeFields("a=rtpmap:", line[9..]);
    assert line == "a=rtpmap:" + line[9..];
  }

  lemma RtpMapOfIff(line: string, pt: string)
    requires StartsWith(line, "a=rtpmap:")
    ensures RtpMapOf(line) == RtpMap(pt) <==> Binds(line, pt)
  {
    RtpMapFields(line);
    var fields := Fields(line[9..]);
    if |fields| == 2 {
      EncodingIff(fields[1]);
      assert fields == [fields[0], fields[1]];
    }
  }

  lemma RtpMapIff(line: string, pt: string)
    ensures ItemOf(line) == RtpMap(pt) <==> Binds(line, pt)
  {
    RtpMapRead(line);
    if StartsWith(line, "a=rtpmap:") {
      RtpMapOfIff(line, pt);
    }
  }

  /** What a format line with these words after the payload type says: p, or nothing that can be read. */
  ghost predicate WordsMean(words: seq<string>, p: Checked) {
    Means(Split(Join(words, ' '), ';'), |Split(Join(words, ' '), ';')|, p)
  }

  /** The line gives format parameters for the payload type. */
  ghost predicate GivesFormat(line: string, pt: string, p: Checked) {
    && StartsWith(line, "a=fmtp:") && Number(pt)
    && exists words :: words != [] && Fields(line[7..]) == [pt] + words && WordsMean(words, p)
  }

  /** The line is a format line for the payload type, but gives it no parameters. */
  ghost predicate Breaks(line: string, pt: string) {
    && StartsWith(line, "a=fmtp:")
    && (exists words :: Fields(line[7..]) == [pt] + words)
    && forall p: Checked :: !GivesFormat(line, pt, p)
  }

  lemma FmtpFields(line: string)
    requires StartsWith(line, "a=fmtp:")
    ensures Fields(AfterPrefix(Trim(line), "a=fmtp:")) == Fields(line[7..])
  {
    AttributeFields("a=fmtp:", line[7..]);
    assert line == "a=fmtp:" + line[7..];
  }

  lemma FieldsFormat(fields: seq<string>, pt: string, p: Checked)
    ensures (exists words :: words != [] && fields == [pt] + words && WordsMean(words, p)) <==>
              |fields| >= 2 && fields[0] == pt && FmtpOf(Join(fields[1..], ' ')) == Ok(p)
  {
    if |fields| >= 2 && fields[0] == pt {
      assert fields == [pt] + fields[1..];
      FmtpIff(Join(fields[1..], ' '), p);
    }
    if words :| words != [] && fields == [pt] + words && WordsMean(words, p) {
      assert fields[1..] == words;
    }
  }

  lemma FmtpOfIff(line: string, pt: string, p: Checked)
    requires StartsWith(line, "a=fmtp:")
    ensures FmtpLineOf(line) == FmtpLine(pt, Ok(p)) <==> GivesFormat(line, pt, p)
  {
    FmtpFields(line);
    FieldsFormat(Fields(line[7..]), pt, p);
  }

  lemma FmtpLineIff(line: string, pt: string, p: Checked)
    ensures ItemOf(line) == FmtpLine(pt, Ok(p)) <==> GivesFormat(line, pt, p)
  {
    FmtpRead(line);
    if StartsWith(line, "a=fmtp:") {
      FmtpOfIff(line, pt, p);
    }
  }

  /** A format line says something about its first word, good or not. */
  lemma FmtpSays(line: string, pt: string)
    requires StartsWith(line, "a=fmtp:")
    ensures (exists words :: Fields(line[7..]) == [pt] + words) <==> FmtpLineOf(line).FmtpLine? && FmtpLineOf(line).payloadType == pt
  {
    FmtpFields(line);
    var fields := Fields(line[7..]);
    if fields != [] {
      assert fields == [fields[0]] + fields[1..];
    }
  }

  lemma FmtpBrokenOf(line: string, pt: string, item: Item)
    requires item.FmtpLine? && item.payloadType == pt
    requires forall p: Checked :: item == FmtpLine(pt, Ok(p)) <==> GivesFormat(line, pt, p)
    ensures item == FmtpLine(pt, Err) <==> forall p: Checked :: !GivesFormat(line, pt, p)
  {
    if item.params.Ok? {
      assert GivesFormat(line, pt, item.params.value);
    }
  }

  lemma FmtpBrokenIff(line: string, pt: string)
    ensures ItemOf(line) == FmtpLine(pt, Err) <==> Breaks(line, pt)
  {
    FmtpRead(line);
    if StartsWith(line, "a=fmtp:") {
      FmtpSays(line, pt);
      var item := FmtpLineOf(line);
      if item.FmtpLine? && item.payloadType == pt {
        forall p: Checked
          ensures item == FmtpLine(pt, Ok(p)) <==> GivesFormat(line, pt, p)
        {
          FmtpOfIff(line, pt, p);
        }
        FmtpBrokenOf(line, pt, item);
      }
    }
  }

  // ----- feedback and header extensions -----------------------------------------------------

  /** The line declares feedback for the payload type: the words after it, joined by blanks. */
  ghost predicate Declares(line: string, pt: string, text: string) {
    && StartsWith(line, "a=rtcp-fb:")
    && exists words :: words != [] && Fields(line[10..]) == [pt] + words && text == Join(words, ' ')
  }

  lemma FeedbackLineIff(line: string, pt: string, text: string)
    ensures ItemOf(line) == Feedback(pt, text) <==> Declares(line, pt, text)
  {
    FeedbackRead(line);
    if StartsWith(line, "a=rtcp-fb:") {
      FieldsTrim(line[10..]);
      var fields := Fields(line[10..]);
      if |fields| >= 2 {
        assert fields == [fields[0]] + fields[1..];
      }
      if Declares(line, pt, text) {
        var words :| words != [] && fields == [pt] + words && text == Join(words, ' ');
        assert fields[1..] == words;
      }
    }
  }

  /** The first word of a mapping, cut at its slash. */
  ghost predicate IdAndDirection(word: string, id: string, direction: string) {
    (word == id && '/' !in id && direction == "")
    || exists d :: word == id + ['/'] + d && '/' !in id && ToLower(Trim(d)) == direction
  }

  /** The words of a mapping: an identifier from 1 to 255, perhaps a direction after a slash, a name, and perhaps more
      words. */
  ghost predicate MapsWords(fields: seq<string>, e: Extmap) {
    && 0 < e.id <= 255 && (e.direction == "" || IsDirection(e.direction))
    && exists word, id, words ::
         && fields == [word, e.uri] + words && IdAndDirection(word, id, e.direction) && Atoi(id) == Some(e.id)
         && e.attributes == Join(words, ' ')
  }

  /** The line maps a header extension. */
  ghost predicate Maps(line: string, e: Extmap) {
    StartsWith(line, "a=extmap:") && MapsWords(Fields(line[9..]), e)
  }

  lemma IdAndDirectionIff(word: string, id: string, direction: string)
    ensures IdAndDirection(word, id, direction) <==>
              var (a, d, found) := Cut(word, '/');
              a == id && direction == if found then ToLower(Trim(d)) else ""
  {
    var (a, d, found) := Cut(word, '/');
    CutFound(word);
    if found {
      assert word == a + ['/'] + d;
    }
    if d' :| word == id + ['/'] + d' && '/' !in id && ToLower(Trim(d')) == direction {
      CutAt(id, '/', d');
    }
  }

  lemma ExtmapIff(line: string, e: Extmap)
    ensures ItemOf(line) == ExtmapLine(e) <==> Maps(line, e)
  {
    ExtmapRead(line);
    if StartsWith(line, "a=extmap:") {
      AttributeFields("a=extmap:", line[9..]);
      assert line == "a=extmap:" + line[9..];
      FieldsMap(Fields(line[9..]), e);
    }
  }

  lemma FieldsMap(fields: seq<string>, e: Extmap)
    ensures MapsWords(fields, e) <==>
              && |fields| >= 2
              && var (idText, direction, found) := Cut(fields[0], '/');
                 var dir := if found then ToLower(Trim(direction)) else "";
                 && Atoi(idText) == Some(e.id) && 0 < e.id <= 255 && (dir == "" || IsDirection(dir))
                 && e == Extmap(e.id, dir, fields[1], Join(fields[2..], ' '))
  {
    if |fields| >= 2 {
      var (idText, direction, found) := Cut(fields[0], '/');
      IdAndDirectionIff(fields[0], idText, e.direction);
      assert fields == [fields[0], fields[1]] + fields[2..];
    }
    if word, id, words :| fields == [word, e.uri] + words && IdAndDirection(word, id, e.direction) && Atoi(id) == Some(e.id)
                          && e.attributes == Join(words, ' ') {
      assert fields[2..] == words && fields[0] == word && fields[1] == e.uri;
      IdAndDirectionIff(word, id, e.direction);
    }
  }

  // ----- sections ---------------------------------------------------------------------------

  /** The lines of a description, in lower case and without spaces around them. */
  function LinesOf(sdp: string): (ls: seq<string>)
    ensures |ls| == |Split(sdp, '\n')| && forall i | 0 <= i < |ls| :: ls[i] == Trim(ToLower(Split(sdp, '\n')[i]))
  {
    var lines := Split(sdp, '\n');
    seq(|lines|, i requires 0 <= i < |lines| => Trim(ToLower(lines[i])))
  }

  ghost predicate Read(items: seq<Item>, ls: seq<string>) {
    |items| == |ls| && forall i | 0 <= i < |ls| :: items[i] == ItemOf(ls[i])
  }

  lemma ItemsRead(sdp: string)
    ensures Read(Items(sdp), LinesOf(sdp))
  {
  }

  predicate IsMedia(line: string) {
    StartsWith(line, "m=")
  }

  /** Line i belongs to the section that line k opens. */
  ghost predicate InSection(ls: seq<string>, k: nat, i: nat) {
    k < i < |ls| && forall j | k < j <= i :: !IsMedia(ls[j])
  }

  /** From line from on, the next media line is at end, or there is none. */
  ghost predicate UpToMedia(ls: seq<string>, from: nat, end: nat) {
    && from <= end <= |ls| && (forall j | from <= j < end :: !IsMedia(ls[j]))
    && (end < |ls| ==> IsMedia(ls[end]))
  }

  /** What a direction line says. */
  function SaidDirection(line: string): Option<string> {
    if |line| < 2 || line[0] != 'a' || line[1] != '=' then None
    else if line[2..] == "sendrecv" || line[2..] == "sendonly" || line[2..] == "recvonly" || line[2..] == "inactive"
    then Some(line[2..]) else None
  }

  function Directions(ls: seq<string>): (ds: seq<Option<string>>)
    ensures |ds| == |ls| && forall i | 0 <= i < |ls| :: ds[i] == SaidDirection(ls[i])
  {
    seq(|ls|, i requires 0 <= i < |ls| => SaidDirection(ls[i]))
  }

  /** d is the last value said from line from up to line end, or the inherited one if none is. */
  ghost predicate LastSaid<T>(ds: seq<Option<T>>, from: nat, end: nat, inherited: T, d: T)
    requires from <= end <= |ds|
  {
    || (exists i :: from <= i < end && ds[i] == Some(d) && forall j | i < j < end :: ds[j].None?)
    || (d == inherited && forall j | from <= j < end :: ds[j].None?)
  }

  /** The same, up to the next media line. */
  ghost predicate LastUpToMedia<T>(ls: seq<string>, from: nat, ds: seq<Option<T>>, inherited: T, d: T)
    requires |ds| == |ls|
  {
    exists end :: UpToMedia(ls, from, end) && LastSaid(ds, from, end, inherited, d)
  }

  ghost predicate LastSaidFrom(ls: seq<string>, from: nat, inherited: string, d: string) {
    LastUpToMedia(ls, from, Directions(ls), inherited, d)
  }

  /** The direction of the section that line k opens: its own last, or else the last one before the first media line,
      or else sendrecv. */
  ghost predicate TextDirection(ls: seq<string>, k: nat, d: string) {
    exists session :: LastSaidFrom(ls, 0, "sendrecv", session) && LastSaidFrom(ls, k + 1, session, d)
  }

  /** The items know which lines are media lines, and which say what direction. */
  ghost predicate Sections(items: seq<Item>, ls: seq<string>) {
    && |items| == |ls|
    && (forall i | 0 <= i < |ls| :: items[i].Media? <==> IsMedia(ls[i]))
    && SameDirections(items, Directions(ls))
  }

  predicate SameDirections(items: seq<Item>, ds: seq<Option<string>>) {
    |items| == |ds| && forall i | 0 <= i < |ds| :: ds[i] == if items[i].Direction? then Some(items[i].direction) else None
  }

  lemma DirectionDispatch(line: string)
    ensures ItemOf(line).Direction? <==> StartsWith(line, "a=") && IsDirection(line[2..])
    ensures ItemOf(line).Direction? ==> ItemOf(line).direction == line[2..]
  {
    assert StartsWith(line, "a=") ==> line[0] == 'a';
  }

  lemma WholeLine(line: string, d: string)
    ensures StartsWith(line, "a=") && line[2..] == d <==> line == "a=" + d
  {
    if StartsWith(line, "a=") {
      assert line == "a=" + line[2..];
    }
    if line == "a=" + d {
      assert line[..2] == "a=" && line[2..] == d;
    }
  }

  lemma DirectionRead(line: string)
    ensures SaidDirection(line) == if ItemOf(line).Direction? then Some(ItemOf(line).direction) else None
  {
    DirectionDispatch(line);
    DirectionSaid(line, ItemOf(line));
  }

  lemma DirectionSaid(line: string, item: Item)
    requires item.Direction? <==> StartsWith(line, "a=") && IsDirection(line[2..])
    requires item.Direction? ==> item.direction == line[2..]
    ensures SaidDirection(line) == if item.Direction? then Some(item.direction) else None
  {
    TwoCharacters(line);
  }

  lemma TwoCharacters(line: string)
    ensures StartsWith(line, "a=") <==> |line| >= 2 && line[0] == 'a' && line[1] == '='
  {
    assert |line| >= 2 ==> line[..2] == [line[0], line[1]];
  }

  lemma ReadSections(items: seq<Item>, ls: seq<string>)
    requires Read(items, ls)
    ensures Sections(items, ls)
  {
    forall i | 0 <= i < |ls|
      ensures items[i].Media? <==> IsMedia(ls[i])
      ensures Directions(ls)[i] == if items[i].Direction? then Some(items[i].direction) else None
    {
      MediaRead(ls[i]);
      DirectionRead(ls[i]);
    }
  }

  lemma NextMediaEnds(items: seq<Item>, ls: seq<string>, from: nat, end: nat)
    requires Sections(items, ls) && from <= |ls|
    ensures UpToMedia(ls, from, end) <==> end == NextMedia(items, from)
  {
    if UpToMedia(ls, from, end) {
      NextMediaIs(items, from, end);
    }
  }

  lemma SliceSnoc<T>(s: seq<T>, from: nat, end: nat)
    requires from < end <= |s|
    ensures var t := s[from..end];
            |t| == end - from && t[..|t| - 1] == s[from..end - 1] && t[|t| - 1] == s[end - 1]
  {
  }

  lemma {:induction false} LastDirectionSaid(items: seq<Item>, ds: seq<Option<string>>, from: nat, end: nat, inherited: string)
    requires SameDirections(items, ds) && from <= end <= |ds|
    ensures LastSaid(ds, from, end, inherited, LastDirection(items[from..end], inherited))
    decreases end
  {
    if from < end {
      var body := items[from..end];
      SliceSnoc(items, from, end);
      if !items[end - 1].Direction? {
        LastDirectionSaid(items, ds, from, end - 1, inherited);
      }
      LastSnoc(ds, from, end, inherited, LastDirection(body, inherited));
    }
  }

  /** One more line. */
  lemma LastSnoc<T>(ds: seq<Option<T>>, from: nat, end: nat, inherited: T, d: T)
    requires from < end <= |ds|
    requires if ds[end - 1].Some? then ds[end - 1].value == d else LastSaid(ds, from, end - 1, inherited, d)
    ensures LastSaid(ds, from, end, inherited, d)
  {
    if ds[end - 1].None? && exists i :: from <= i < end - 1 && ds[i] == Some(d) && forall j | i < j < end - 1 :: ds[j].None? {
      var i :| from <= i < end - 1 && ds[i] == Some(d) && forall j | i < j < end - 1 :: ds[j].None?;
      assert forall j | i < j < end :: ds[j].None?;
    }
  }

  lemma LastSaidOne<T>(ds: seq<Option<T>>, from: nat, end: nat, inherited: T, d: T, e: T)
    requires from <= end <= |ds| && LastSaid(ds, from, end, inherited, d) && LastSaid(ds, from, end, inherited, e)
    ensures d == e
  {
  }

  lemma LastUpIs<T>(items: seq<Item>, ls: seq<string>, from: nat, ds: seq<Option<T>>, inherited: T, v: T, w: T)
    requires Sections(items, ls) && from <= |ls| == |ds| && LastSaid(ds, from, NextMedia(items, from), inherited, v)
    ensures LastUpToMedia(ls, from, ds, inherited, w) <==> w == v
  {
    NextMediaEnds(items, ls, from, NextMedia(items, from));
    if end :| UpToMedia(ls, from, end) && LastSaid(ds, from, end, inherited, w) {
      NextMediaEnds(items, ls, from, end);
      LastSaidOne(ds, from, end, inherited, v, w);
    }
  }

  lemma LastSaidIs(items: seq<Item>, ls: seq<string>, from: nat, inherited: string, d: string)
    requires Sections(items, ls) && from <= |ls|
    ensures LastSaidFrom(ls, from, inherited, d) <==> d == LastDirection(items[from..NextMedia(items, from)], inherited)
  {
    var end := NextMedia(items, from);
    LastDirectionSaid(items, Directions(ls), from, end, inherited);
    LastUpIs(items, ls, from, Directions(ls), inherited, LastDirection(items[from..end], inherited), d);
  }

  lemma TextDirectionIs(items: seq<Item>, ls: seq<string>, k: nat, d: string)
    requires Sections(items, ls) && k < |ls|
    ensures TextDirection(ls, k, d) <==> d == LastDirection(Body(items, k), SessionDirection(items))
  {
    assert items[0..NextMedia(items, 0)] == items[..NextMedia(items, 0)];
    forall session
      ensures LastSaidFrom(ls, 0, "sendrecv", session) <==> session == SessionDirection(items)
    {
      LastSaidIs(items, ls, 0, "sendrecv", session);
    }
    LastSaidIs(items, ls, k + 1, SessionDirection(items), d);
    assert LastSaidFrom(ls, 0, "sendrecv", SessionDirection(items));
  }

  lemma InSlice<T>(s: seq<T>, a: nat, b: nat, x: T)
    requires a <= b <= |s|
    ensures x in s[a..b] <==> exists i: nat :: a <= i < b && s[i] == x
  {
    if x in s[a..b] {
      var j :| 0 <= j < b - a && s[a..b][j] == x;
      assert s[a + j] == x;
    }
    if i: nat :| a <= i < b && s[i] == x {
      assert s[a..b][i - a] == x;
    }
  }

  /** The items of a section are those of its lines. */
  lemma InBody(items: seq<Item>, ls: seq<string>, k: nat, item: Item)
    requires Sections(items, ls) && k < |ls|
    ensures item in Body(items, k) <==> exists i: nat :: InSection(ls, k, i) && items[i] == item
  {
    var end := NextMedia(items, k + 1);
    NextMediaEnds(items, ls, k + 1, end);
    InSlice(items, k + 1, end, item);
    assert end < |ls| ==> IsMedia(ls[end]);
    assert forall i: nat :: InSection(ls, k, i) <==> k + 1 <= i < end;
    if i: nat :| k + 1 <= i < end && items[i] == item {
      assert InSection(ls, k, i);
    }
  }

  // ----- payload types of a section ---------------------------------------------------------

  /** An active video section: the words of its media line say so. */
  ghost predicate OpensVideo(line: string) {
    IsMedia(line) && |Fields(line[2..])| >= 4 && Fields(line[2..])[0] == "video" && Open(Fields(line[2..])[1])
  }

  /** The media line has the payload type, some line of the section binds it to AV1, and none breaks its format. */
  ghost predicate TextAvailable(ls: seq<string>, k: nat, pt: string)
    requires k < |ls| && IsMedia(ls[k])
  {
    && (exists j :: 3 <= j < |Fields(ls[k][2..])| && Fields(ls[k][2..])[j] == pt)
    && (exists i: nat :: InSection(ls, k, i) && Binds(ls[i], pt))
    && forall i: nat | InSection(ls, k, i) :: !Breaks(ls[i], pt)
  }

  lemma OpensVideoIff(items: seq<Item>, ls: seq<string>, k: nat)
    requires Read(items, ls) && k < |ls| && IsMedia(ls[k])
    ensures items[k].Media? && (ReadsAttributes(items[k].line) <==> OpensVideo(ls[k]))
    ensures OpensVideo(ls[k]) ==> forall pt :: pt in items[k].line.payloadTypes <==>
              exists j :: 3 <= j < |Fields(ls[k][2..])| && Fields(ls[k][2..])[j] == pt
  {
    MediaRead(ls[k]);
    MediaIff(ls[k], items[k].line);
  }

  // ----- parameters, feedback and extensions of a section -----------------------------------

  /** The parameters a line gives for the payload type. */
  ghost function Given(line: string, pt: string): Option<Checked> {
    if p :| GivesFormat(line, pt, p) then Some(p) else None
  }

  /** gs says, line by line, what is given; sealed. */
  ghost predicate GivenTable(ls: seq<string>, pt: string, gs: seq<Option<Checked>>) {
    && |gs| == |ls|
    && forall k: int {:trigger Unsealed(k)} :: Unsealed(k) ==> forall i | 0 <= i < |ls| :: gs[i] == Given(ls[i], pt)
  }

  /** The capabilities of a payload type in the section that line k opens: those of its last well-formed format line,
      or else profile 0, level 5, tier 0. */
  ghost predicate TextCapabilities(ls: seq<string>, k: nat, pt: string, caps: Checked) {
    exists gs :: GivenTable(ls, pt, gs) && LastUpToMedia(ls, k + 1, gs, Fmtp(0, 5, 0), caps)
  }

  lemma GivenOne(ls: seq<string>, pt: string, gs: seq<Option<Checked>>, hs: seq<Option<Checked>>)
    requires GivenTable(ls, pt, gs) && GivenTable(ls, pt, hs)
    ensures gs == hs
  {
    assert Unsealed(0);
  }

  lemma GivenTabled(ls: seq<string>, pt: string) returns (gs: seq<Option<Checked>>)
    ensures GivenTable(ls, pt, gs)
  {
    gs := seq(|ls|, i requires 0 <= i < |ls| => Given(ls[i], pt));
  }

  lemma GivenIs(line: string, item: Item, pt: string)
    requires forall p: Checked :: item == FmtpLine(pt, Ok(p)) <==> GivesFormat(line, pt, p)
    ensures Given(line, pt) == match item
                               case FmtpLine(t, params) => if t == pt && params.Ok? then Some(params.value) else None
                               case _ => None
  {
    if item.FmtpLine? && item.payloadType == pt && item.params.Ok? {
      assert GivesFormat(line, pt, item.params.value);
    }
  }

  /** Some line of the section declares the feedback, for the payload type or for all. */
  ghost predicate TextFeedback(ls: seq<string>, k: nat, pt: string, wanted: string) {
    exists i: nat, from, text :: InSection(ls, k, i) && Declares(ls[i], from, text) && (from == pt || from == "*")
                              && ToLower(Trim(text)) == wanted
  }

  /** The identifier that a line gives the wanted extension, in a section with direction d. */
  ghost function Mapped(line: string, d: string, uri: string, extensionOk: string -> bool): Option<Int> {
    if e :| Maps(line, e) && ToLower(Trim(e.uri)) == uri && extensionOk(if e.direction == "" then d else e.direction)
    then Some(e.id) else None
  }

  /** ms says, line by line, what is mapped; sealed. */
  ghost predicate MappedTable(ls: seq<string>, d: string, uri: string, extensionOk: string -> bool, ms: seq<Option<Int>>) {
    && |ms| == |ls|
    && forall k: int {:trigger Unsealed(k)} :: Unsealed(k) ==>
         forall i | 0 <= i < |ls| :: ms[i] == Mapped(ls[i], d, uri, extensionOk)
  }

  lemma MappedOne(ls: seq<string>, d: string, uri: string, extensionOk: string -> bool, ms: seq<Option<Int>>, ns: seq<Option<Int>>)
    requires MappedTable(ls, d, uri, extensionOk, ms) && MappedTable(ls, d, uri, extensionOk, ns)
    ensures ms == ns
  {
    assert Unsealed(0);
  }

  lemma MappedTabled(ls: seq<string>, d: string, uri: string, extensionOk: string -> bool) returns (ms: seq<Option<Int>>)
    ensures MappedTable(ls, d, uri, extensionOk, ms)
  {
    ms := seq(|ls|, i requires 0 <= i < |ls| => Mapped(ls[i], d, uri, extensionOk));
  }

  /** The first value said from line from up to line end, if any is. */
  ghost predicate FirstSaid<T>(ds: seq<Option<T>>, from: nat, end: nat, v: Option<T>)
    requires from <= end <= |ds|
  {
    match v
    case Some(x) => exists i :: from <= i < end && ds[i] == v && forall j | from <= j < i :: ds[j].None?
    case None => forall j | from <= j < end :: ds[j].None?
  }

  ghost predicate FirstUpToMedia<T>(ls: seq<string>, from: nat, ds: seq<Option<T>>, v: Option<T>)
    requires |ds| == |ls|
  {
    exists end :: UpToMedia(ls, from, end) && FirstSaid(ds, from, end, v)
  }

  lemma FirstSnoc<T>(ds: seq<Option<T>>, from: nat, end: nat, before: Option<T>, v: Option<T>)
    requires from < end <= |ds| && FirstSaid(ds, from, end - 1, before)
    requires v == if before.Some? then before else ds[end - 1]
    ensures FirstSaid(ds, from, end, v)
  {
  }

  lemma FirstSaidIs<T>(items: seq<Item>, ls: seq<string>, from: nat, ds: seq<Option<T>>, v: Option<T>, w: Option<T>)
    requires Sections(items, ls) && from <= |ls| == |ds| && FirstSaid(ds, from, NextMedia(items, from), v)
    ensures FirstUpToMedia(ls, from, ds, w) <==> w == v
  {
    NextMediaEnds(items, ls, from, NextMedia(items, from));
    if end :| UpToMedia(ls, from, end) && FirstSaid(ds, from, end, w) {
      NextMediaEnds(items, ls, from, end);
    }
  }

  /** The first identifier that the section opened by line k gives the extension. */
  ghost predicate TextExtension(ls: seq<string>, k: nat, uri: string, extensionOk: string -> bool, id: Option<Int>) {
    exists d, ms :: TextDirection(ls, k, d) && MappedTable(ls, d, uri, extensionOk, ms) && FirstUpToMedia(ls, k + 1, ms, id)
  }
}
