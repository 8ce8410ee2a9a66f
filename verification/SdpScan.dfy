/**
 The one-pass scan of a session description for an AV1 media section with a given property.
 */
module SdpScan {
  import opened Values
  import opened Numbers
  import opened Text
  import opened SdpRid
  import opened SdpFmtp
  import opened SdpSimulcast

  // ----- lines ------------------------------------------------------------------------------

  datatype Extmap = Extmap(id: Int, direction: string, uri: string, attributes: string)

  datatype MediaLine = MediaLine(kind: string, active: bool, payloadTypes: set<string>)

  /** What one line says. A format line keeps its payload type even when its parameters are malformed. */
  datatype Item =
    | Media(line: MediaLine)
    | Direction(direction: string)
    | RtpMap(payloadType: string)
    | FmtpLine(payloadType: string, params: Result<Checked>)
    | Feedback(payloadType: string, text: string)
    | ExtmapLine(extmap: Extmap)
    | RidLine(rid: Rid)
    | SimulcastLine(simulcast: Simulcast)
    | Other

  predicate AllZeros(s: string) {
    forall i | 0 <= i < |s| :: s[i] == '0'
  }

  function MediaOf(line: string): Item {
    var fields := Fields(line[if StartsWith(line, "m=") then 2 else 0..]);
    if |fields| < 4 then Media(MediaLine("", false, {}))
    else Media(MediaLine(fields[0], !AllZeros(Cut(fields[1], '/').0), set i | 3 <= i < |fields| :: fields[i]))
  }

  predicate IsDirection(d: string) {
    d == "sendrecv" || d == "sendonly" || d == "recvonly" || d == "inactive"
  }

  predicate PayloadNumber(s: string) {
    s != "" && AllDigits(s) && Decimal(s) <= 127
  }

  function RtpMapOf(line: string): Item {
    var fields := Fields(AfterPrefix(Trim(line), "a=rtpmap:"));
    if |fields| != 2 || !PayloadNumber(fields[0]) then Other
    else
      var encoding := Split(fields[1], '/');
      if |encoding| == 2 && ToLower(encoding[0]) == "av1" && Atoi(encoding[1]) == Some(90000) then RtpMap(fields[0])
      else Other
  }

  function FmtpLineOf(line: string): Item {
    var fields := Fields(AfterPrefix(Trim(line), "a=fmtp:"));
    if |fields| == 0 then Other
    else if |fields| < 2 || !PayloadNumber(fields[0]) then FmtpLine(fields[0], Err)
    else FmtpLine(fields[0], FmtpOf(Join(fields[1..], ' ')))
  }

  function FeedbackOf(line: string): Item {
    var fields := Fields(AfterPrefix(line, "a=rtcp-fb:"));
    if |fields| < 2 then Other else Feedback(fields[0], Join(fields[1..], ' '))
  }

  function ExtmapOf(line: string): Item {
    var fields := Fields(AfterPrefix(Trim(line), "a=extmap:"));
    if |fields| < 2 then Other
    else
      var (idText, direction, found) := Cut(fields[0], '/');
      var id := Atoi(idText);
      var dir := if found then ToLower(Trim(direction)) else "";
      if id.None? || id.value <= 0 || id.value > 255 || (dir != "" && !IsDirection(dir)) then Other
      else ExtmapLine(Extmap(id.value, dir, fields[1], Join(fields[2..], ' ')))
  }

  function ItemOf(line: string): Item {
    if StartsWith(line, "m=") then MediaOf(line)
    else if StartsWith(line, "a=") && IsDirection(line[2..]) then Direction(line[2..])
    else if StartsWith(line, "a=rtpmap:") then RtpMapOf(line)
    else if StartsWith(line, "a=fmtp:") then FmtpLineOf(line)
    else if StartsWith(line, "a=rtcp-fb:") then FeedbackOf(line)
    else if StartsWith(line, "a=extmap:") then ExtmapOf(line)
    else if StartsWith(line, "a=rid:") then (var r := RidOf(line); if r.Ok? then RidLine(r.value) else Other)
    else if StartsWith(line, "a=simulcast:") then
      (var s := SimulcastOf(line); if s.Ok? then SimulcastLine(s.value) else Other)
    else Other
  }

  function ItemAt(lines: seq<string>, i: nat): Item
    requires i < |lines|
  {
    ItemOf(Trim(ToLower(lines[i])))
  }

  function Items(sdp: string): (items: seq<Item>)
    ensures |items| == |Split(sdp, '\n')| && forall i | 0 <= i < |items| :: items[i] == ItemAt(Split(sdp, '\n'), i)
  {
    var lines := Split(sdp, '\n');
    seq(|lines|, i requires 0 <= i < |lines| => ItemAt(lines, i))
  }

  // ----- sections ---------------------------------------------------------------------------

  /** Payload types bound to AV1, the parameters given for them, and those with a malformed format line. */
  datatype Formats = Formats(av1: set<string>, params: map<string, string>, invalid: set<string>)

  datatype RidTable = RidTable(rids: seq<Rid>, seen: set<string>, duplicate: set<string>)

  datatype Simulcasts = Simulcasts(last: Simulcast, seen: bool, duplicate: bool)

  /** What has been gathered about one media section. */
  datatype Section = Section(
    media: MediaLine,
    direction: string,
    formats: Formats,
    feedback: map<string, seq<string>>,
    extmaps: seq<Extmap>,
    table: RidTable,
    simulcasts: Simulcasts)

  const NO_FORMATS: Formats := Formats({}, map[], {})
  const NO_RIDS: RidTable := RidTable([], {}, {})
  const NO_SIMULCAST: Simulcasts := Simulcasts(Simulcast([], []), false, false)

  function NewSection(m: MediaLine, direction: string): Section {
    Section(m, direction, NO_FORMATS, map[], [], NO_RIDS, NO_SIMULCAST)
  }

  predicate ReadsAttributes(m: MediaLine) {
    m.kind == "video" && m.active
  }

  function AddFormat(f: Formats, has: set<string>, item: Item): Formats {
    match item
    case RtpMap(pt) => if pt in has then f.(av1 := f.av1 + {pt}) else f
    case FmtpLine(pt, params) =>
      if pt !in has then f
      else if params.Err? then f.(invalid := f.invalid + {pt})
      else f.(params := f.params[pt := SdpFmtp.Printed(params.value)])
    case _ => f
  }

  function FeedbackTexts(feedback: map<string, seq<string>>, pt: string): seq<string> {
    if pt in feedback then feedback[pt] else []
  }

  function AddFeedback(feedback: map<string, seq<string>>, has: set<string>, item: Item): map<string, seq<string>> {
    if item.Feedback? && (item.payloadType == "*" || item.payloadType in has)
    then feedback[item.payloadType := FeedbackTexts(feedback, item.payloadType) + [item.text]] else feedback
  }

  function AddExtmap(es: seq<Extmap>, item: Item): seq<Extmap> {
    if item.ExtmapLine? then es + [item.extmap] else es
  }

  /** The payload types of a restriction that the section has. */
  function Filtered(pts: seq<string>, has: set<string>): seq<string> {
    if pts == [] then []
    else Filtered(pts[..|pts| - 1], has) + if pts[|pts| - 1] in has then [pts[|pts| - 1]] else []
  }

  /** The restriction as the section keeps it; None if it names payload types but none of the section. */
  function Kept(r: Rid, has: set<string>): Option<Rid> {
    if r.payloadTypes == [] then Some(r)
    else if Filtered(r.payloadTypes, has) == [] then None
    else Some(r.(payloadTypes := Filtered(r.payloadTypes, has)))
  }

  function AddRid(t: RidTable, has: set<string>, item: Item): RidTable {
    if item.RidLine? && Kept(item.rid, has).Some?
    then
      RidTable(t.rids + [Kept(item.rid, has).value], t.seen + {item.rid.id},
               if item.rid.id in t.seen then t.duplicate + {item.rid.id} else t.duplicate)
    else t
  }

  function AddSimulcast(c: Simulcasts, item: Item): Simulcasts {
    if item.SimulcastLine? then Simulcasts(item.simulcast, true, c.duplicate || c.seen) else c
  }

  /** One attribute line of a video section. */
  function Attribute(s: Section, item: Item): Section {
    Section(s.media, s.direction,
            AddFormat(s.formats, s.media.payloadTypes, item),
            AddFeedback(s.feedback, s.media.payloadTypes, item),
            AddExtmap(s.extmaps, item),
            AddRid(s.table, s.media.payloadTypes, item),
            AddSimulcast(s.simulcasts, item))
  }

  /** One line inside a section. */
  function Step(s: Section, item: Item): Section {
    if item.Direction? then s.(direction := item.direction)
    else if ReadsAttributes(s.media) then Attribute(s, item)
    else s
  }

  function Gathered(s: Section, body: seq<Item>): Section {
    if body == [] then s else Step(Gathered(s, body[..|body| - 1]), body[|body| - 1])
  }

  // ----- where sections are -----------------------------------------------------------------

  /** The first media line from i on, or the end. */
  function NextMedia(items: seq<Item>, i: nat): (j: nat)
    requires i <= |items|
    ensures i <= j <= |items| && (forall k | i <= k < j :: !items[k].Media?)
    ensures j < |items| ==> items[j].Media?
    decreases |items| - i
  {
    if i == |items| || items[i].Media? then i else NextMedia(items, i + 1)
  }

  lemma NextMediaIs(items: seq<Item>, i: nat, j: nat)
    requires i <= j <= |items| && (forall k | i <= k < j :: !items[k].Media?)
    requires j == |items| || items[j].Media?
    ensures NextMedia(items, i) == j
  {
  }

  function LastDirection(body: seq<Item>, inherited: string): string {
    if body == [] then inherited
    else if body[|body| - 1].Direction? then body[|body| - 1].direction
    else LastDirection(body[..|body| - 1], inherited)
  }

  /** The last direction before the first media line. */
  function SessionDirection(items: seq<Item>): string {
    LastDirection(items[..NextMedia(items, 0)], "sendrecv")
  }

  function Body(items: seq<Item>, k: nat): seq<Item>
    requires k < |items|
  {
    items[k + 1..NextMedia(items, k + 1)]
  }

  /** The section that starts at media line k, with its own attributes. */
  function SectionAt(items: seq<Item>, k: nat): Section
    requires k < |items| && items[k].Media?
  {
    Gathered(NewSection(items[k].line, SessionDirection(items)), Body(items, k))
  }

  // ----- the question -----------------------------------------------------------------------

  predicate Usable(s: Section, pt: string) {
    && pt in s.formats.av1 && pt !in s.formats.invalid
    && (pt in s.formats.params ==> FmtpOf(s.formats.params[pt]).Ok?)
  }

  ghost predicate HasAv1(s: Section, directionOk: string -> bool, payloadOk: (Section, string) -> bool) {
    && ReadsAttributes(s.media) && directionOk(s.direction)
    && exists pt :: Usable(s, pt) && payloadOk(s, pt)
  }

  ghost predicate Answers(items: seq<Item>, k: nat, directionOk: string -> bool, payloadOk: (Section, string) -> bool) {
    k < |items| && items[k].Media? && HasAv1(SectionAt(items, k), directionOk, payloadOk)
  }

  /** The loop over the payload types, in whatever order the table yields them. */
  method CheckSection(s: Section, directionOk: string -> bool, payloadOk: (Section, string) -> bool) returns (ok: bool)
    ensures ok == HasAv1(s, directionOk, payloadOk)
  {
    if !ReadsAttributes(s.media) || !directionOk(s.direction) {
      return false;
    }
    var left := s.formats.av1;
    while left != {}
      invariant left <= s.formats.av1
      invariant forall pt | pt in s.formats.av1 && pt !in left :: !(Usable(s, pt) && payloadOk(s, pt))
      decreases left
    {
      var pt :| pt in left;
      left := left - {pt};
      if pt in s.formats.invalid {
        continue;
      }
      if pt in s.formats.params && FmtpOf(s.formats.params[pt]).Err? {
        continue;
      }
      if payloadOk(s, pt) {
        return true;
      }
    }
    return false;
  }

  lemma GatheredSnoc(s: Section, items: seq<Item>, k: nat, i: nat)
    requires k <= i < |items|
    ensures Gathered(s, items[k..i + 1]) == Step(Gathered(s, items[k..i]), items[i])
  {
    var body := items[k..i + 1];
    assert body[..|body| - 1] == items[k..i];
  }

  lemma LastDirectionSnoc(items: seq<Item>, i: nat, inherited: string)
    requires i < |items|
    ensures LastDirection(items[..i + 1], inherited) ==
              if items[i].Direction? then items[i].direction else LastDirection(items[..i], inherited)
  {
    assert items[..i + 1][..i] == items[..i];
  }

  /** The scan after i lines: before the first section, or in the section that started at line at. */
  ghost predicate Scanned(items: seq<Item>, i: nat, haveSection: bool, at: nat, sessionDirection: string, section: Section) {
    && at <= i <= |items|
    && if haveSection then
         && at < i && items[at].Media? && (forall k | at < k < i :: !items[k].Media?)
         && sessionDirection == SessionDirection(items)
         && section == Gathered(NewSection(items[at].line, sessionDirection), items[at + 1..i])
       else
         && at == 0 && (forall k | 0 <= k < i :: !items[k].Media?)
         && sessionDirection == LastDirection(items[..i], "sendrecv")
  }

  lemma ScannedMedia(items: seq<Item>, i: nat, haveSection: bool, at: nat, sessionDirection: string, section: Section)
    requires Scanned(items, i, haveSection, at, sessionDirection, section) && i < |items| && items[i].Media?
    ensures Scanned(items, i + 1, true, i, sessionDirection, NewSection(items[i].line, sessionDirection))
    ensures haveSection ==> section == SectionAt(items, at)
  {
    assert items[i + 1..i + 1] == [];
    if haveSection {
      NextMediaIs(items, at + 1, i);
    } else {
      NextMediaIs(items, 0, i);
    }
  }

  lemma ScannedOther(items: seq<Item>, i: nat, haveSection: bool, at: nat, sessionDirection: string, section: Section)
    requires Scanned(items, i, haveSection, at, sessionDirection, section) && i < |items| && !items[i].Media?
    ensures Scanned(items, i + 1, haveSection, at,
              if !haveSection && items[i].Direction? then items[i].direction else sessionDirection,
              if haveSection then Step(section, items[i]) else section)
  {
    if haveSection {
      GatheredSnoc(NewSection(items[at].line, sessionDirection), items, at + 1, i);
    } else {
      LastDirectionSnoc(items, i, "sendrecv");
    }
  }

  lemma ScannedEnd(items: seq<Item>, at: nat, sessionDirection: string, section: Section)
    requires Scanned(items, |items|, true, at, sessionDirection, section)
    ensures section == SectionAt(items, at)
  {
    NextMediaIs(items, at + 1, |items|);
  }

  /** The scan: one pass with one mutable section. It finds the first section that answers the question, and
      so whether any does; the order in which payload types are tried makes no difference. */
  method Scan(items: seq<Item>, directionOk: string -> bool, payloadOk: (Section, string) -> bool)
    returns (found: bool, section: Section, ghost at: nat)
    ensures found <==> exists k :: Answers(items, k, directionOk, payloadOk)
    ensures found ==> Answers(items, at, directionOk, payloadOk) && section == SectionAt(items, at)
    ensures found ==> forall k | 0 <= k < at :: !Answers(items, k, directionOk, payloadOk)
  {
    var sessionDirection := "sendrecv";
    section := NewSection(MediaLine("", false, {}), sessionDirection);
    var haveSection := false;
    at := 0;
    for i := 0 to |items|
      invariant Scanned(items, i, haveSection, at, sessionDirection, section)
      invariant forall k | 0 <= k < at :: !Answers(items, k, directionOk, payloadOk)
    {
      var item := items[i];
      if item.Media? {
        ScannedMedia(items, i, haveSection, at, sessionDirection, section);
        if haveSection {
          var answered := CheckSection(section, directionOk, payloadOk);
          if answered {
            assert Answers(items, at, directionOk, payloadOk);
            return true, section, at;
          }
        }
        section := NewSection(item.line, sessionDirection);
        haveSection := true;
        at := i;
        continue;
      }
      ScannedOther(items, i, haveSection, at, sessionDirection, section);
      if item.Direction? {
        if haveSection {
          section := section.(direction := item.direction);
        } else {
          sessionDirection := item.direction;
        }
        continue;
      }
      if !haveSection || !ReadsAttributes(section.media) {
        continue;
      }
      section := Attribute(section, item);
    }
    found := false;
    if haveSection {
      ScannedEnd(items, at, sessionDirection, section);
      found := CheckSection(section, directionOk, payloadOk);
    }
    NothingLater(items, haveSection, at, sessionDirection, section, directionOk, payloadOk);
    assert found ==> Answers(items, at, directionOk, payloadOk);
  }

  lemma NothingLater(items: seq<Item>, haveSection: bool, at: nat, sessionDirection: string, section: Section,
                     directionOk: string -> bool, payloadOk: (Section, string) -> bool)
    requires Scanned(items, |items|, haveSection, at, sessionDirection, section)
    ensures forall k | (if haveSection then at < k else true) :: !Answers(items, k, directionOk, payloadOk)
  {
  }
}
