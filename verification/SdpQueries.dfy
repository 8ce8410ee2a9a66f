/**
 What the scan's answers mean: the gathered section, and the questions asked of it, in terms of the lines of
 the description.
 */
module SdpQueries {
  import opened Values
  import opened Numbers
  import opened Text
  import opened SdpRid
  import opened SdpFmtp
  import opened SdpSimulcast
  import opened SdpScan
  import opened SdpLines

  // ----- what a section holds ---------------------------------------------------------------

  lemma {:induction false} MediaKept(s: Section, body: seq<Item>)
    ensures Gathered(s, body).media == s.media
    ensures Gathered(s, body).direction == LastDirection(body, s.direction)
  {
    if body != [] {
      MediaKept(s, body[..|body| - 1]);
    }
  }

  lemma InFront(body: seq<Item>, item: Item)
    requires body != []
    ensures item in body <==> item in body[..|body| - 1] || item == body[|body| - 1]
  {
    assert body == body[..|body| - 1] + [body[|body| - 1]];
  }

  /** A payload type is bound to AV1 if the media line has it and some line binds it; its format is malformed
      if some format line for it is. */
  lemma {:induction false} FormatsAre(m: MediaLine, d: string, body: seq<Item>, pt: string)
    requires ReadsAttributes(m)
    ensures var f := Gathered(NewSection(m, d), body).formats;
            && (pt in f.av1 <==> pt in m.payloadTypes && RtpMap(pt) in body)
            && (pt in f.invalid <==> pt in m.payloadTypes && FmtpLine(pt, Err) in body)
  {
    if body != [] {
      var front := body[..|body| - 1];
      FormatsAre(m, d, front, pt);
      MediaKept(NewSection(m, d), front);
      InFront(body, RtpMap(pt));
      InFront(body, FmtpLine(pt, Err));
    }
  }

  /** The parameters of the last well-formed format line for pt. */
  function LastParams(body: seq<Item>, pt: string): Option<Checked> {
    if body == [] then None
    else
      var last := body[|body| - 1];
      if last.FmtpLine? && last.payloadType == pt && last.params.Ok? then Some(last.params.value)
      else LastParams(body[..|body| - 1], pt)
  }

  /** The parameters kept as text are those of the last well-formed line, and are read back as them. */
  lemma {:induction false} ParamsAre(m: MediaLine, d: string, body: seq<Item>, pt: string)
    requires ReadsAttributes(m) && pt in m.payloadTypes
    ensures var f := Gathered(NewSection(m, d), body).formats;
            && (pt in f.params <==> LastParams(body, pt).Some?)
            && (pt in f.params ==> FmtpOf(f.params[pt]) == Ok(LastParams(body, pt).value))
  {
    if body != [] {
      var front, last := body[..|body| - 1], body[|body| - 1];
      ParamsAre(m, d, front, pt);
      MediaKept(NewSection(m, d), front);
      if last.FmtpLine? && last.payloadType == pt && last.params.Ok? {
        SdpFmtp.RoundTrip(last.params.value);
      }
    }
  }

  lemma {:induction false} FeedbackIs(m: MediaLine, d: string, body: seq<Item>, pt: string, text: string)
    requires ReadsAttributes(m)
    ensures text in FeedbackTexts(Gathered(NewSection(m, d), body).feedback, pt) <==>
              (pt == "*" || pt in m.payloadTypes) && Feedback(pt, text) in body
  {
    if body != [] {
      FeedbackIs(m, d, body[..|body| - 1], pt, text);
      MediaKept(NewSection(m, d), body[..|body| - 1]);
      InFront(body, Feedback(pt, text));
    }
  }

  /** The restrictions of the section, in order. */
  function KeptRids(body: seq<Item>, has: set<string>): seq<Rid> {
    if body == [] then []
    else
      var front, last := KeptRids(body[..|body| - 1], has), body[|body| - 1];
      if last.RidLine? && Kept(last.rid, has).Some? then front + [Kept(last.rid, has).value] else front
  }

  ghost predicate Repeated(rids: seq<Rid>, id: string) {
    exists i, j :: 0 <= i < j < |rids| && rids[i].id == id && rids[j].id == id
  }

  ghost predicate Named(rids: seq<Rid>, id: string) {
    exists i :: 0 <= i < |rids| && rids[i].id == id
  }

  lemma RepeatedSnoc(rids: seq<Rid>, r: Rid, id: string)
    ensures Named(rids + [r], id) <==> Named(rids, id) || r.id == id
    ensures Repeated(rids + [r], id) <==> Repeated(rids, id) || (Named(rids, id) && r.id == id)
  {
    var all := rids + [r];
    assert forall i | 0 <= i < |rids| :: all[i] == rids[i];
    assert all[|rids|] == r;
    if Named(rids, id) {
      var i :| 0 <= i < |rids| && rids[i].id == id;
      assert all[i].id == id;
      assert r.id == id ==> all[i].id == id && all[|rids|].id == id;
    }
    if Repeated(rids, id) {
      var i, j :| 0 <= i < j < |rids| && rids[i].id == id && rids[j].id == id;
      assert all[i].id == id && all[j].id == id;
    }
    if Repeated(all, id) {
      var i, j :| 0 <= i < j < |all| && all[i].id == id && all[j].id == id;
      assert rids[i].id == id;
      assert j < |rids| ==> rids[j].id == id;
    }
  }

  /** An identifier is marked as duplicate exactly if two kept restrictions have it. */
  lemma {:induction false} RidsAre(m: MediaLine, d: string, body: seq<Item>, id: string)
    requires ReadsAttributes(m)
    ensures var t := Gathered(NewSection(m, d), body).table;
            && t.rids == KeptRids(body, m.payloadTypes)
            && (id in t.seen <==> Named(t.rids, id))
            && (id in t.duplicate <==> Repeated(t.rids, id))
  {
    if body != [] {
      var front, last := body[..|body| - 1], body[|body| - 1];
      RidsAre(m, d, front, id);
      MediaKept(NewSection(m, d), front);
      if last.RidLine? && Kept(last.rid, m.payloadTypes).Some? {
        RepeatedSnoc(KeptRids(front, m.payloadTypes), Kept(last.rid, m.payloadTypes).value, id);
      }
    }
  }

  function CountSimulcasts(body: seq<Item>): nat {
    if body == [] then 0 else CountSimulcasts(body[..|body| - 1]) + if body[|body| - 1].SimulcastLine? then 1 else 0
  }

  lemma {:induction false} SimulcastsAre(m: MediaLine, d: string, body: seq<Item>)
    requires ReadsAttributes(m)
    ensures var c := Gathered(NewSection(m, d), body).simulcasts;
            && (c.seen <==> CountSimulcasts(body) >= 1)
            && (c.duplicate <==> CountSimulcasts(body) >= 2)
            && (c.seen ==> SimulcastLine(c.last) in body)
  {
    if body != [] {
      var front := body[..|body| - 1];
      SimulcastsAre(m, d, front);
      MediaKept(NewSection(m, d), front);
      InFront(body, SimulcastLine(Gathered(NewSection(m, d), body).simulcasts.last));
    }
  }

  // ----- AV1 at all -------------------------------------------------------------------------

  /** Line by line: an active video section whose direction is acceptable, with a payload type of the media
      line that some line binds to AV1, that has no malformed format line, and with property q. */
  ghost predicate Described(items: seq<Item>, k: nat, directionOk: string -> bool, q: string -> bool) {
    && k < |items| && items[k].Media? && ReadsAttributes(items[k].line)
    && directionOk(LastDirection(Body(items, k), SessionDirection(items)))
    && exists pt :: AvailableAt(items, k, pt) && q(pt)
  }

  ghost predicate AvailableAt(items: seq<Item>, k: nat, pt: string)
    requires k < |items| && items[k].Media?
  {
    && pt in items[k].line.payloadTypes
    && RtpMap(pt) in Body(items, k) && FmtpLine(pt, Err) !in Body(items, k)
  }

  lemma UsableIff(items: seq<Item>, k: nat, pt: string)
    requires k < |items| && items[k].Media? && ReadsAttributes(items[k].line)
    ensures Usable(SectionAt(items, k), pt) <==> AvailableAt(items, k, pt)
  {
    var m, d, body := items[k].line, SessionDirection(items), Body(items, k);
    FormatsAre(m, d, body, pt);
    if pt in m.payloadTypes {
      ParamsAre(m, d, body, pt);
    }
  }

  /** What a section answers, if the property asked of it comes down to a property of its lines. */
  lemma AnswersIff(items: seq<Item>, k: nat, directionOk: string -> bool, payloadOk: (Section, string) -> bool, q: string -> bool)
    requires k < |items| && items[k].Media? && ReadsAttributes(items[k].line) ==>
               forall pt :: payloadOk(SectionAt(items, k), pt) == q(pt)
    ensures Answers(items, k, directionOk, payloadOk) <==> Described(items, k, directionOk, q)
  {
    if k < |items| && items[k].Media? {
      var s := SectionAt(items, k);
      MediaKept(NewSection(items[k].line, SessionDirection(items)), Body(items, k));
      if ReadsAttributes(items[k].line) {
        forall pt
          ensures Usable(s, pt) <==> AvailableAt(items, k, pt)
        {
          UsableIff(items, k, pt);
        }
        if HasAv1(s, directionOk, payloadOk) {
          var pt :| Usable(s, pt) && payloadOk(s, pt);
          assert AvailableAt(items, k, pt) && q(pt);
        }
        if Described(items, k, directionOk, q) {
          var pt :| AvailableAt(items, k, pt) && q(pt);
          assert Usable(s, pt) && payloadOk(s, pt);
        }
      }
    }
  }

  // ----- the same of the text ---------------------------------------------------------------

  /** In the text: line k opens an active video section whose direction is acceptable, with a payload type of the media
      line that some line of the section binds to AV1, whose format none of them breaks, and with property q. */
  ghost predicate TextDescribed(ls: seq<string>, k: nat, directionOk: string -> bool, q: string -> bool) {
    && k < |ls| && OpensVideo(ls[k])
    && (exists d :: TextDirection(ls, k, d) && directionOk(d))
    && exists pt :: TextAvailable(ls, k, pt) && q(pt)
  }

  lemma AvailableIff(items: seq<Item>, ls: seq<string>, k: nat, pt: string)
    requires Read(items, ls) && Sections(items, ls) && k < |ls| && OpensVideo(ls[k])
    ensures items[k].Media? && (AvailableAt(items, k, pt) <==> TextAvailable(ls, k, pt))
  {
    OpensVideoIff(items, ls, k);
    InBody(items, ls, k, RtpMap(pt));
    InBody(items, ls, k, FmtpLine(pt, Err));
    forall i: nat | i < |ls|
      ensures items[i] == RtpMap(pt) <==> Binds(ls[i], pt)
      ensures items[i] == FmtpLine(pt, Err) <==> Breaks(ls[i], pt)
    {
      RtpMapIff(ls[i], pt);
      FmtpBrokenIff(ls[i], pt);
    }
  }

  /** What is said of the items is said of the text. */
  lemma DescribedIff(items: seq<Item>, ls: seq<string>, k: nat, directionOk: string -> bool, q: string -> bool)
    requires Read(items, ls)
    ensures Described(items, k, directionOk, q) <==> TextDescribed(ls, k, directionOk, q)
  {
    ReadSections(items, ls);
    if k < |ls| && IsMedia(ls[k]) {
      OpensVideoIff(items, ls, k);
      if OpensVideo(ls[k]) {
        forall d
          ensures TextDirection(ls, k, d) <==> d == LastDirection(Body(items, k), SessionDirection(items))
        {
          TextDirectionIs(items, ls, k, d);
        }
        forall pt
          ensures AvailableAt(items, k, pt) <==> TextAvailable(ls, k, pt)
        {
          AvailableIff(items, ls, k, pt);
        }
        DescribedOpen(items, ls, k, directionOk, q);
      }
    }
  }

  lemma DescribedOpen(items: seq<Item>, ls: seq<string>, k: nat, directionOk: string -> bool, q: string -> bool)
    requires k < |ls| == |items| && items[k].Media? && IsMedia(ls[k]) && ReadsAttributes(items[k].line) && OpensVideo(ls[k])
    requires forall d :: TextDirection(ls, k, d) <==> d == LastDirection(Body(items, k), SessionDirection(items))
    requires forall pt :: AvailableAt(items, k, pt) <==> TextAvailable(ls, k, pt)
    ensures Described(items, k, directionOk, q) <==> TextDescribed(ls, k, directionOk, q)
  {
    assert TextDirection(ls, k, LastDirection(Body(items, k), SessionDirection(items)));
  }

  /** Whether the description negotiates AV1 at all. */
  method Negotiates(sdp: string, directionOk: string -> bool) returns (ok: bool)
    ensures ok <==> exists k :: TextDescribed(LinesOf(sdp), k, directionOk, Always())
  {
    var items := Items(sdp);
    var section;
    ghost var at;
    ok, section, at := Scan(items, directionOk, AskNothing());
    forall k
      ensures Answers(items, k, directionOk, AskNothing()) <==> Described(items, k, directionOk, Always())
    {
      AnswersIff(items, k, directionOk, AskNothing(), Always());
    }
    ItemsRead(sdp);
    forall k
      ensures Described(items, k, directionOk, Always()) <==> TextDescribed(LinesOf(sdp), k, directionOk, Always())
    {
      DescribedIff(items, LinesOf(sdp), k, directionOk, Always());
    }
  }

  function AskNothing(): (Section, string) -> bool {
    (s, pt) => true
  }

  function Always(): string -> bool {
    pt => true
  }

  // ----- feedback ---------------------------------------------------------------------------

  predicate Contains(texts: seq<string>, wanted: string) {
    exists i :: 0 <= i < |texts| && ToLower(Trim(texts[i])) == wanted
  }

  predicate HasFeedback(s: Section, pt: string, wanted: string) {
    Contains(FeedbackTexts(s.feedback, pt), wanted) || Contains(FeedbackTexts(s.feedback, "*"), wanted)
  }

  /** Some feedback line for the payload type, or for all of them, has the wanted text. */
  ghost predicate FeedbackDescribed(items: seq<Item>, k: nat, pt: string, wanted: string)
    requires k < |items| && items[k].Media?
  {
    exists item :: item in Body(items, k) && item.Feedback? && ToLower(Trim(item.text)) == wanted
                && (item.payloadType == "*" || (item.payloadType == pt && pt in items[k].line.payloadTypes))
  }

  lemma FeedbackIff(items: seq<Item>, k: nat, pt: string, wanted: string)
    requires k < |items| && items[k].Media? && ReadsAttributes(items[k].line)
    ensures HasFeedback(SectionAt(items, k), pt, wanted) <==> FeedbackDescribed(items, k, pt, wanted)
  {
    var m, d, body := items[k].line, SessionDirection(items), Body(items, k);
    var s := SectionAt(items, k);
    if HasFeedback(s, pt, wanted) {
      var from := if Contains(FeedbackTexts(s.feedback, pt), wanted) then pt else "*";
      var texts := FeedbackTexts(s.feedback, from);
      var i :| 0 <= i < |texts| && ToLower(Trim(texts[i])) == wanted;
      FeedbackIs(m, d, body, from, texts[i]);
      assert Feedback(from, texts[i]) in body;
    }
    if FeedbackDescribed(items, k, pt, wanted) {
      var item :| item in body && item.Feedback? && ToLower(Trim(item.text)) == wanted
                  && (item.payloadType == "*" || (item.payloadType == pt && pt in m.payloadTypes));
      FeedbackIs(m, d, body, item.payloadType, item.text);
      var texts := FeedbackTexts(s.feedback, item.payloadType);
      var i :| 0 <= i < |texts| && texts[i] == item.text;
    }
  }

  function AskFeedback(wanted: string): (Section, string) -> bool {
    (s, pt) => HasFeedback(s, pt, wanted)
  }

  ghost function FeedbackAt(items: seq<Item>, k: nat, wanted: string): string -> bool {
    pt => k < |items| && items[k].Media? && FeedbackDescribed(items, k, pt, wanted)
  }

  lemma FeedbackAnswers(items: seq<Item>, k: nat, directionOk: string -> bool, wanted: string)
    ensures Answers(items, k, directionOk, AskFeedback(wanted)) <==>
              Described(items, k, directionOk, FeedbackAt(items, k, wanted))
  {
    if k < |items| && items[k].Media? && ReadsAttributes(items[k].line) {
      forall pt
        ensures AskFeedback(wanted)(SectionAt(items, k), pt) == FeedbackAt(items, k, wanted)(pt)
      {
        FeedbackIff(items, k, pt, wanted);
      }
    }
    AnswersIff(items, k, directionOk, AskFeedback(wanted), FeedbackAt(items, k, wanted));
  }

  ghost function FeedbackIn(ls: seq<string>, k: nat, wanted: string): string -> bool {
    pt => TextFeedback(ls, k, pt, wanted)
  }

  /** A property may be replaced by one that agrees on the payload types that count. */
  lemma SameDescribed(ls: seq<string>, k: nat, directionOk: string -> bool, q: string -> bool, r: string -> bool)
    requires k < |ls| && OpensVideo(ls[k]) ==> forall pt | TextAvailable(ls, k, pt) :: q(pt) == r(pt)
    ensures TextDescribed(ls, k, directionOk, q) <==> TextDescribed(ls, k, directionOk, r)
  {
    if TextDescribed(ls, k, directionOk, q) {
      var pt :| TextAvailable(ls, k, pt) && q(pt);
      assert r(pt);
    }
    if TextDescribed(ls, k, directionOk, r) {
      var pt :| TextAvailable(ls, k, pt) && r(pt);
      assert q(pt);
    }
  }

  lemma FeedbackTextIff(items: seq<Item>, ls: seq<string>, k: nat, pt: string, wanted: string)
    requires Read(items, ls) && Sections(items, ls) && k < |ls| && OpensVideo(ls[k]) && TextAvailable(ls, k, pt)
    ensures items[k].Media? && (FeedbackDescribed(items, k, pt, wanted) <==> TextFeedback(ls, k, pt, wanted))
  {
    OpensVideoIff(items, ls, k);
    if FeedbackDescribed(items, k, pt, wanted) {
      var item :| item in Body(items, k) && item.Feedback? && ToLower(Trim(item.text)) == wanted
                  && (item.payloadType == "*" || (item.payloadType == pt && pt in items[k].line.payloadTypes));
      InBody(items, ls, k, item);
      var i: nat :| InSection(ls, k, i) && items[i] == item;
      FeedbackLineIff(ls[i], item.payloadType, item.text);
    }
    if TextFeedback(ls, k, pt, wanted) {
      var i: nat, from, text :| InSection(ls, k, i) && Declares(ls[i], from, text) && (from == pt || from == "*")
                                && ToLower(Trim(text)) == wanted;
      FeedbackLineIff(ls[i], from, text);
      InBody(items, ls, k, Feedback(from, text));
    }
  }

  lemma FeedbackSection(items: seq<Item>, ls: seq<string>, k: nat, directionOk: string -> bool, wanted: string)
    requires Read(items, ls)
    ensures Answers(items, k, directionOk, AskFeedback(wanted)) <==> TextDescribed(ls, k, directionOk, FeedbackIn(ls, k, wanted))
  {
    FeedbackAnswers(items, k, directionOk, wanted);
    DescribedIff(items, ls, k, directionOk, FeedbackAt(items, k, wanted));
    ReadSections(items, ls);
    if k < |ls| && OpensVideo(ls[k]) {
      forall pt | TextAvailable(ls, k, pt)
        ensures FeedbackAt(items, k, wanted)(pt) == FeedbackIn(ls, k, wanted)(pt)
      {
        FeedbackTextIff(items, ls, k, pt, wanted);
      }
    }
    SameDescribed(ls, k, directionOk, FeedbackAt(items, k, wanted), FeedbackIn(ls, k, wanted));
  }

  /** Whether AV1 is negotiated with a kind of feedback. */
  method NegotiatesFeedback(sdp: string, directionOk: string -> bool, feedback: string) returns (ok: bool)
    ensures var ls, wanted := LinesOf(sdp), ToLower(Trim(feedback));
            ok <==> wanted != "" && exists k :: TextDescribed(ls, k, directionOk, FeedbackIn(ls, k, wanted))
  {
    var items := Items(sdp);
    var wanted := ToLower(Trim(feedback));
    if wanted == "" {
      return false;
    }
    var section;
    ghost var at;
    ok, section, at := Scan(items, directionOk, AskFeedback(wanted));
    ItemsRead(sdp);
    forall k
      ensures Answers(items, k, directionOk, AskFeedback(wanted)) <==>
                TextDescribed(LinesOf(sdp), k, directionOk, FeedbackIn(LinesOf(sdp), k, wanted))
    {
      FeedbackSection(items, LinesOf(sdp), k, directionOk, wanted);
    }
  }

  // ----- stream parameters ------------------------------------------------------------------

  predicate AcceptsParams(s: Section, pt: string, stream: Checked) {
    if pt in s.formats.params then
      var caps := FmtpOf(s.formats.params[pt]);
      caps.Ok? && Fits(stream, caps.value)
    else Fits(stream, DEFAULT)
  }

  function AskParams(stream: Checked): (Section, string) -> bool {
    (s, pt) => AcceptsParams(s, pt, stream)
  }

  /** The capabilities of a payload type: its last well-formed format line, or the defaults. */
  ghost function Capabilities(items: seq<Item>, k: nat, pt: string): Checked {
    if k < |items| && LastParams(Body(items, k), pt).Some? then LastParams(Body(items, k), pt).value else Fmtp(0, 5, 0)
  }

  /** The stream's profile is not above the receiver's, and its level is below, or equal with a tier not above. */
  predicate Within(stream: Fmtp, caps: Fmtp) {
    stream.profile <= caps.profile && (stream.level < caps.level || (stream.level == caps.level && stream.tier <= caps.tier))
  }

  ghost function FitsAt(items: seq<Item>, k: nat, stream: Checked): string -> bool {
    pt => Within(stream, Capabilities(items, k, pt))
  }

  lemma ParamsAnswers(items: seq<Item>, k: nat, directionOk: string -> bool, stream: Checked)
    ensures Answers(items, k, directionOk, AskParams(stream)) <==> Described(items, k, directionOk, FitsAt(items, k, stream))
  {
    if k < |items| && items[k].Media? {
      var s := SectionAt(items, k);
      MediaKept(NewSection(items[k].line, SessionDirection(items)), Body(items, k));
      if ReadsAttributes(items[k].line) {
        if HasAv1(s, directionOk, AskParams(stream)) {
          var pt :| Usable(s, pt) && AskParams(stream)(s, pt);
          UsableIff(items, k, pt);
          ParamsAre(items[k].line, SessionDirection(items), Body(items, k), pt);
          assert FitsAt(items, k, stream)(pt);
        }
        if Described(items, k, directionOk, FitsAt(items, k, stream)) {
          var pt :| AvailableAt(items, k, pt) && FitsAt(items, k, stream)(pt);
          UsableIff(items, k, pt);
          ParamsAre(items[k].line, SessionDirection(items), Body(items, k), pt);
          assert Usable(s, pt) && AskParams(stream)(s, pt);
        }
      }
    }
  }

  /** What an item gives as parameters of a payload type. */
  function GivenBy(item: Item, pt: string): Option<Checked> {
    match item
    case FmtpLine(t, params) => if t == pt && params.Ok? then Some(params.value) else None
    case _ => None
  }

  predicate GivenEach(items: seq<Item>, gs: seq<Option<Checked>>, pt: string) {
    |gs| == |items| && forall i | 0 <= i < |items| :: gs[i] == GivenBy(items[i], pt)
  }

  /** The same, sealed. */
  ghost predicate GivenLike(items: seq<Item>, gs: seq<Option<Checked>>, pt: string) {
    |gs| == |items| && forall k: int {:trigger Unsealed(k)} :: Unsealed(k) ==> GivenEach(items, gs, pt)
  }

  lemma GivenItem(items: seq<Item>, gs: seq<Option<Checked>>, pt: string, i: nat)
    requires GivenLike(items, gs, pt) && i < |items|
    ensures gs[i] == GivenBy(items[i], pt)
  {
    assert Unsealed(0);
  }

  lemma {:induction false} LastParamsSaid(items: seq<Item>, gs: seq<Option<Checked>>, from: nat, end: nat, pt: string, caps: Checked)
    requires GivenLike(items, gs, pt) && from <= end <= |items|
    requires caps == if LastParams(items[from..end], pt).Some? then LastParams(items[from..end], pt).value else DEFAULT
    ensures LastSaid(gs, from, end, DEFAULT, caps)
    decreases end
  {
    if from < end {
      SliceSnoc(items, from, end);
      GivenItem(items, gs, pt, end - 1);
      if gs[end - 1].None? {
        LastParamsSaid(items, gs, from, end - 1, pt, caps);
      }
      LastSnoc(gs, from, end, DEFAULT, caps);
    }
  }

  lemma GivenAt(items: seq<Item>, ls: seq<string>, i: nat, pt: string)
    requires Read(items, ls) && i < |ls|
    ensures Given(ls[i], pt) == GivenBy(items[i], pt)
  {
    forall p: Checked
      ensures items[i] == FmtpLine(pt, Ok(p)) <==> GivesFormat(ls[i], pt, p)
    {
      FmtpLineIff(ls[i], pt, p);
    }
    GivenIs(ls[i], items[i], pt);
  }

  lemma TableGivenLike(items: seq<Item>, ls: seq<string>, pt: string, gs: seq<Option<Checked>>)
    requires Read(items, ls) && GivenTable(ls, pt, gs)
    ensures GivenLike(items, gs, pt)
  {
    assert Unsealed(0);
    forall i | 0 <= i < |items|
      ensures gs[i] == GivenBy(items[i], pt)
    {
      GivenAt(items, ls, i, pt);
    }
  }

  /** The capabilities, as the text has them. */
  lemma {:induction false} CapabilitiesText(items: seq<Item>, ls: seq<string>, k: nat, pt: string, gs: seq<Option<Checked>>, found: Checked, caps: Checked)
    requires Sections(items, ls) && k < |ls| && GivenTable(ls, pt, gs)
    requires LastSaid(gs, k + 1, NextMedia(items, k + 1), Fmtp(0, 5, 0), found)
    ensures TextCapabilities(ls, k, pt, caps) <==> caps == found
  {
    LastUpIs(items, ls, k + 1, gs, Fmtp(0, 5, 0), found, caps);
    if TextCapabilities(ls, k, pt, caps) {
      var hs :| GivenTable(ls, pt, hs) && LastUpToMedia(ls, k + 1, hs, Fmtp(0, 5, 0), caps);
      GivenOne(ls, pt, gs, hs);
    }
  }

  lemma CapabilitiesAre(items: seq<Item>, ls: seq<string>, k: nat, pt: string)
    requires Read(items, ls) && Sections(items, ls) && k < |ls|
    ensures forall caps: Checked :: TextCapabilities(ls, k, pt, caps) <==> caps == Capabilities(items, k, pt)
  {
    var gs := GivenTabled(ls, pt);
    var found := Capabilities(items, k, pt);
    TableGivenLike(items, ls, pt, gs);
    LastParamsSaid(items, gs, k + 1, NextMedia(items, k + 1), pt, found);
    forall caps: Checked
      ensures TextCapabilities(ls, k, pt, caps) <==> caps == found
    {
      CapabilitiesText(items, ls, k, pt, gs, found, caps);
    }
  }

  ghost function FitsIn(ls: seq<string>, k: nat, stream: Fmtp): string -> bool {
    pt => exists caps: Checked :: TextCapabilities(ls, k, pt, caps) && Within(stream, caps)
  }

  lemma ParamsSection(items: seq<Item>, ls: seq<string>, k: nat, directionOk: string -> bool, stream: Checked)
    requires Read(items, ls)
    ensures Answers(items, k, directionOk, AskParams(stream)) <==> TextDescribed(ls, k, directionOk, FitsIn(ls, k, stream))
  {
    ParamsAnswers(items, k, directionOk, stream);
    DescribedIff(items, ls, k, directionOk, FitsAt(items, k, stream));
    ReadSections(items, ls);
    if k < |ls| {
      forall pt
        ensures FitsAt(items, k, stream)(pt) == FitsIn(ls, k, stream)(pt)
      {
        CapabilitiesAre(items, ls, k, pt);
      }
    }
    SameDescribed(ls, k, directionOk, FitsAt(items, k, stream), FitsIn(ls, k, stream));
  }

  /** Whether AV1 is negotiated with parameters that allow the stream. */
  method NegotiatesParams(sdp: string, directionOk: string -> bool, stream: Fmtp) returns (ok: bool)
    ensures var ls := LinesOf(sdp);
            ok <==> ValidFmtp(stream) && exists k :: TextDescribed(ls, k, directionOk, FitsIn(ls, k, stream))
  {
    if !ValidFmtp(stream) {
      return false;
    }
    var items := Items(sdp);
    var section;
    ghost var at;
    ok, section, at := Scan(items, directionOk, AskParams(stream));
    ItemsRead(sdp);
    forall k
      ensures Answers(items, k, directionOk, AskParams(stream)) <==>
                TextDescribed(LinesOf(sdp), k, directionOk, FitsIn(LinesOf(sdp), k, stream))
    {
      ParamsSection(items, LinesOf(sdp), k, directionOk, stream);
    }
  }

  // ----- header extensions ------------------------------------------------------------------

  predicate Matches(s: Section, e: Extmap, uri: string, extensionOk: string -> bool) {
    ToLower(Trim(e.uri)) == uri && extensionOk(if e.direction == "" then s.direction else e.direction)
  }

  /** The first mapping of the wanted extension. */
  function ExtensionId(s: Section, es: seq<Extmap>, uri: string, extensionOk: string -> bool): Option<Int> {
    if es == [] then None
    else if Matches(s, es[0], uri, extensionOk) then Some(es[0].id)
    else ExtensionId(s, es[1..], uri, extensionOk)
  }

  function AskExtension(uri: string, extensionOk: string -> bool): (Section, string) -> bool {
    (s: Section, pt: string) => ExtensionId(s, s.extmaps, uri, extensionOk).Some?
  }

  /** The mappings of a section are those of its lines, in order. */
  function Mappings(body: seq<Item>): seq<Extmap> {
    if body == [] then []
    else Mappings(body[..|body| - 1]) + if body[|body| - 1].ExtmapLine? then [body[|body| - 1].extmap] else []
  }

  lemma {:induction false} MappingsAre(m: MediaLine, d: string, body: seq<Item>)
    requires ReadsAttributes(m)
    ensures Gathered(NewSection(m, d), body).extmaps == Mappings(body)
  {
    if body != [] {
      MappingsAre(m, d, body[..|body| - 1]);
      MediaKept(NewSection(m, d), body[..|body| - 1]);
    }
  }

  lemma {:induction false} ExtensionIdSnoc(s: Section, es: seq<Extmap>, e: Extmap, uri: string, extensionOk: string -> bool)
    ensures ExtensionId(s, es + [e], uri, extensionOk) ==
              if ExtensionId(s, es, uri, extensionOk).Some? then ExtensionId(s, es, uri, extensionOk)
              else if Matches(s, e, uri, extensionOk) then Some(e.id) else None
  {
    if es == [] {
      assert ([] + [e])[0] == e && ([] + [e])[1..] == [];
    } else {
      assert (es + [e])[1..] == es[1..] + [e];
      ExtensionIdSnoc(s, es[1..], e, uri, extensionOk);
    }
  }

  /** The identifier that an item gives the extension. */
  function MappedBy(s: Section, item: Item, uri: string, extensionOk: string -> bool): Option<Int> {
    if item.ExtmapLine? && Matches(s, item.extmap, uri, extensionOk) then Some(item.extmap.id) else None
  }

  lemma MappedItem(items: seq<Item>, ms: seq<Option<Int>>, s: Section, uri: string, extensionOk: string -> bool, i: nat)
    requires MappedLike(items, ms, s, uri, extensionOk) && i < |items|
    ensures ms[i] == MappedBy(s, items[i], uri, extensionOk)
  {
    assert Unsealed(0);
  }

  lemma {:induction false} ExtensionFirst(s: Section, items: seq<Item>, ms: seq<Option<Int>>, from: nat, end: nat, uri: string,
                                          extensionOk: string -> bool, found: Option<Int>)
    requires MappedLike(items, ms, s, uri, extensionOk) && from <= end <= |items|
    requires found == ExtensionId(s, Mappings(items[from..end]), uri, extensionOk)
    ensures FirstSaid(ms, from, end, found)
    decreases end
  {
    if from < end {
      SliceSnoc(items, from, end);
      var before := Mappings(items[from..end - 1]);
      ExtensionFirst(s, items, ms, from, end - 1, uri, extensionOk, ExtensionId(s, before, uri, extensionOk));
      MappedItem(items, ms, s, uri, extensionOk, end - 1);
      if items[end - 1].ExtmapLine? {
        ExtensionIdSnoc(s, before, items[end - 1].extmap, uri, extensionOk);
      } else {
        assert before + [] == before;
      }
      FirstSnoc(ms, from, end, ExtensionId(s, before, uri, extensionOk), found);
    }
  }

  lemma MappedIs(line: string, item: Item, s: Section, uri: string, extensionOk: string -> bool)
    requires forall e :: item == ExtmapLine(e) <==> Maps(line, e)
    ensures Mapped(line, s.direction, uri, extensionOk) == MappedBy(s, item, uri, extensionOk)
  {
    if item.ExtmapLine? {
      assert Maps(line, item.extmap);
    }
  }

  lemma MappedAt(items: seq<Item>, ls: seq<string>, i: nat, s: Section, uri: string, extensionOk: string -> bool)
    requires Read(items, ls) && i < |ls|
    ensures Mapped(ls[i], s.direction, uri, extensionOk) == MappedBy(s, items[i], uri, extensionOk)
  {
    forall e
      ensures items[i] == ExtmapLine(e) <==> Maps(ls[i], e)
    {
      ExtmapIff(ls[i], e);
    }
    MappedIs(ls[i], items[i], s, uri, extensionOk);
  }

  predicate MappedEach(items: seq<Item>, ms: seq<Option<Int>>, s: Section, uri: string, extensionOk: string -> bool) {
    |ms| == |items| && forall i | 0 <= i < |items| :: ms[i] == MappedBy(s, items[i], uri, extensionOk)
  }

  /** The same, sealed. */
  ghost predicate MappedLike(items: seq<Item>, ms: seq<Option<Int>>, s: Section, uri: string, extensionOk: string -> bool) {
    |ms| == |items| && forall k: int {:trigger Unsealed(k)} :: Unsealed(k) ==> MappedEach(items, ms, s, uri, extensionOk)
  }

  lemma TableMappedLike(items: seq<Item>, ls: seq<string>, s: Section, uri: string, extensionOk: string -> bool, ms: seq<Option<Int>>)
    requires Read(items, ls) && MappedTable(ls, s.direction, uri, extensionOk, ms)
    ensures MappedLike(items, ms, s, uri, extensionOk)
  {
    assert Unsealed(0);
    forall i | 0 <= i < |items|
      ensures ms[i] == MappedBy(s, items[i], uri, extensionOk)
    {
      MappedAt(items, ls, i, s, uri, extensionOk);
    }
  }

  /** The identifier found in a section is the first that the text of its lines gives. */
  lemma {:induction false} ExtensionText(items: seq<Item>, ls: seq<string>, k: nat, uri: string, extensionOk: string -> bool, id: Option<Int>)
    requires Read(items, ls) && Sections(items, ls) && k < |ls| && OpensVideo(ls[k])
    ensures items[k].Media?
    ensures TextExtension(ls, k, uri, extensionOk, id) <==>
              id == ExtensionId(SectionAt(items, k), SectionAt(items, k).extmaps, uri, extensionOk)
  {
    OpensVideoIff(items, ls, k);
    MediaKept(NewSection(items[k].line, SessionDirection(items)), Body(items, k));
    MappingsAre(items[k].line, SessionDirection(items), Body(items, k));
    var s, end := SectionAt(items, k), NextMedia(items, k + 1);
    var found := ExtensionId(s, s.extmaps, uri, extensionOk);
    var ms := MappedTabled(ls, s.direction, uri, extensionOk);
    assert s.extmaps == Mappings(items[k + 1..end]);
    TableMappedLike(items, ls, s, uri, extensionOk, ms);
    ExtensionFirst(s, items, ms, k + 1, end, uri, extensionOk, found);
    OnlyDirection(items, ls, k, s.direction);
    DirectedText(items, ls, k, s.direction, uri, extensionOk, ms, found, id);
  }

  lemma {:induction false} DirectedText(items: seq<Item>, ls: seq<string>, k: nat, direction: string, uri: string, extensionOk: string -> bool,
                                        ms: seq<Option<Int>>, found: Option<Int>, id: Option<Int>)
    requires Sections(items, ls) && k < |ls| && forall d :: TextDirection(ls, k, d) <==> d == direction
    requires MappedTable(ls, direction, uri, extensionOk, ms) && FirstSaid(ms, k + 1, NextMedia(items, k + 1), found)
    ensures TextExtension(ls, k, uri, extensionOk, id) <==> id == found
  {
    FirstSaidIs(items, ls, k + 1, ms, found, id);
    if TextExtension(ls, k, uri, extensionOk, id) {
      var d, ns :| TextDirection(ls, k, d) && MappedTable(ls, d, uri, extensionOk, ns) && FirstUpToMedia(ls, k + 1, ns, id);
      MappedOne(ls, direction, uri, extensionOk, ms, ns);
    }
    if id == found {
      assert TextDirection(ls, k, direction);
    }
  }

  lemma OnlyDirection(items: seq<Item>, ls: seq<string>, k: nat, direction: string)
    requires Sections(items, ls) && k < |ls| && direction == LastDirection(Body(items, k), SessionDirection(items))
    ensures forall d :: TextDirection(ls, k, d) <==> d == direction
  {
    forall d
      ensures TextDirection(ls, k, d) <==> d == direction
    {
      TextDirectionIs(items, ls, k, d);
    }
  }

  ghost function ExtensionIn(ls: seq<string>, k: nat, uri: string, extensionOk: string -> bool): string -> bool {
    pt => exists id: Int :: TextExtension(ls, k, uri, extensionOk, Some(id))
  }

  /** Line k opens a section for which AV1 is described, and which maps the extension. */
  ghost predicate ExtensionDescribed(ls: seq<string>, k: nat, directionOk: string -> bool, uri: string, extensionOk: string -> bool) {
    TextDescribed(ls, k, directionOk, ExtensionIn(ls, k, uri, extensionOk))
  }

  /** It is the first such section, and id is the first identifier that it gives. */
  ghost predicate FirstDescribed(ls: seq<string>, k: nat, directionOk: string -> bool, uri: string, extensionOk: string -> bool, id: Option<Int>) {
    && ExtensionDescribed(ls, k, directionOk, uri, extensionOk)
    && (forall j | 0 <= j < k :: !ExtensionDescribed(ls, j, directionOk, uri, extensionOk))
    && TextExtension(ls, k, uri, extensionOk, id)
  }

  lemma ExtensionSection(items: seq<Item>, ls: seq<string>, k: nat, directionOk: string -> bool, uri: string, extensionOk: string -> bool)
    requires Read(items, ls)
    ensures Answers(items, k, directionOk, AskExtension(uri, extensionOk)) <==>
              ExtensionDescribed(ls, k, directionOk, uri, extensionOk)
  {
    ReadSections(items, ls);
    if k < |ls| && IsMedia(ls[k]) {
      OpensVideoIff(items, ls, k);
      if OpensVideo(ls[k]) {
        SomeExtension(items, ls, k, uri, extensionOk);
      }
    }
    AnswersIff(items, k, directionOk, AskExtension(uri, extensionOk), ExtensionIn(ls, k, uri, extensionOk));
    DescribedIff(items, ls, k, directionOk, ExtensionIn(ls, k, uri, extensionOk));
  }

  lemma SomeExtension(items: seq<Item>, ls: seq<string>, k: nat, uri: string, extensionOk: string -> bool)
    requires Read(items, ls) && Sections(items, ls) && k < |ls| && OpensVideo(ls[k])
    ensures items[k].Media?
    ensures forall pt :: AskExtension(uri, extensionOk)(SectionAt(items, k), pt) == ExtensionIn(ls, k, uri, extensionOk)(pt)
  {
    OpensVideoIff(items, ls, k);
    var s := SectionAt(items, k);
    var found := ExtensionId(s, s.extmaps, uri, extensionOk);
    ExtensionText(items, ls, k, uri, extensionOk, found);
    forall id: Int
      ensures TextExtension(ls, k, uri, extensionOk, Some(id)) <==> found == Some(id)
    {
      ExtensionText(items, ls, k, uri, extensionOk, Some(id));
    }
  }

  /** The identifier under which the first section that has one maps the extension. It is a function of the text:
      neither it nor whether there is one depends on the order of a table. */
  method HeaderExtensionId(sdp: string, directionOk: string -> bool, extensionOk: string -> bool, uriText: string)
    returns (id: Option<Int>)
    ensures id.Some? <==>
              && ToLower(Trim(uriText)) != ""
              && exists k :: ExtensionDescribed(LinesOf(sdp), k, directionOk, ToLower(Trim(uriText)), extensionOk)
    ensures id.Some? ==> exists k :: FirstDescribed(LinesOf(sdp), k, directionOk, ToLower(Trim(uriText)), extensionOk, id)
  {
    var uri := ToLower(Trim(uriText));
    if uri == "" {
      return None;
    }
    var items := Items(sdp);
    ghost var ls := LinesOf(sdp);
    var found, section;
    ghost var at;
    found, section, at := Scan(items, directionOk, AskExtension(uri, extensionOk));
    ItemsRead(sdp);
    ExtensionSections(items, ls, directionOk, uri, extensionOk);
    if !found {
      return None;
    }
    id := ExtensionId(section, section.extmaps, uri, extensionOk);
    ExtensionFound(items, ls, at, directionOk, uri, extensionOk, id);
    assert FirstDescribed(ls, at, directionOk, uri, extensionOk, id);
  }

  lemma ExtensionSections(items: seq<Item>, ls: seq<string>, directionOk: string -> bool, uri: string, extensionOk: string -> bool)
    requires Read(items, ls)
    ensures forall k :: Answers(items, k, directionOk, AskExtension(uri, extensionOk)) <==>
                        ExtensionDescribed(ls, k, directionOk, uri, extensionOk)
  {
    forall k
      ensures Answers(items, k, directionOk, AskExtension(uri, extensionOk)) <==>
                ExtensionDescribed(ls, k, directionOk, uri, extensionOk)
    {
      ExtensionSection(items, ls, k, directionOk, uri, extensionOk);
    }
  }

  lemma ExtensionFound(items: seq<Item>, ls: seq<string>, at: nat, directionOk: string -> bool, uri: string, extensionOk: string -> bool, id: Option<Int>)
    requires Read(items, ls) && Answers(items, at, directionOk, AskExtension(uri, extensionOk))
    requires forall j | 0 <= j < at :: !ExtensionDescribed(ls, j, directionOk, uri, extensionOk)
    requires id == ExtensionId(SectionAt(items, at), SectionAt(items, at).extmaps, uri, extensionOk)
    ensures id.Some? && FirstDescribed(ls, at, directionOk, uri, extensionOk, id)
  {
    ReadSections(items, ls);
    ExtensionSection(items, ls, at, directionOk, uri, extensionOk);
    ExtensionText(items, ls, at, uri, extensionOk, id);
    var pt :| Usable(SectionAt(items, at), pt) && AskExtension(uri, extensionOk)(SectionAt(items, at), pt);
  }

  // ----- restrictions and simulcast ---------------------------------------------------------

  function FirstRid(rids: seq<Rid>, id: string, direction: string): Option<Rid> {
    if rids == [] then None
    else if rids[0].id == id && rids[0].direction == direction then Some(rids[0])
    else FirstRid(rids[1..], id, direction)
  }

  /** The restriction with an identifier; none if the identifier is ambiguous. */
  function Lookup(t: RidTable, id: string, direction: string): Option<Rid> {
    if id in t.duplicate then None else FirstRid(t.rids, id, direction)
  }

  lemma {:induction false} FirstRidFound(rids: seq<Rid>, id: string, direction: string)
    ensures var r := FirstRid(rids, id, direction);
            && (r.Some? ==> r.value in rids && r.value.id == id && r.value.direction == direction)
            && (r.None? ==> forall i | 0 <= i < |rids| :: rids[i].id != id || rids[i].direction != direction)
  {
    if rids != [] {
      FirstRidFound(rids[1..], id, direction);
      assert forall i | 1 <= i < |rids| :: rids[i] == rids[1..][i - 1];
    }
  }

  /** A looked-up restriction is the only one of the section with its identifier. */
  lemma LookupIsUnique(m: MediaLine, d: string, body: seq<Item>, id: string, direction: string)
    requires ReadsAttributes(m)
    ensures var t := Gathered(NewSection(m, d), body).table;
            Lookup(t, id, direction).Some? <==>
              exists i :: && 0 <= i < |t.rids| && t.rids[i].id == id && t.rids[i].direction == direction
                          && (forall j | 0 <= j < |t.rids| && t.rids[j].id == id :: j == i)
  {
    var t := Gathered(NewSection(m, d), body).table;
    RidsAre(m, d, body, id);
    FirstRidFound(t.rids, id, direction);
    if Lookup(t, id, direction).Some? {
      var r := Lookup(t, id, direction).value;
      var i :| 0 <= i < |t.rids| && t.rids[i] == r;
      forall j | 0 <= j < |t.rids| && t.rids[j].id == id
        ensures j == i
      {
        assert i < j ==> Repeated(t.rids, id);
        assert j < i ==> Repeated(t.rids, id);
      }
    }
  }

  /** The identifiers of a direction of the section's only simulcast line, if it has that direction. */
  function SimulcastRids(c: Simulcasts, direction: string): Option<seq<string>> {
    var streams := if direction == "send" then c.last.send else if direction == "recv" then c.last.receive else [];
    if !c.seen || c.duplicate || streams == [] then None else Some(RidsOf(streams))
  }

  predicate PayloadAllowed(r: Rid, pt: string) {
    r.payloadTypes == [] || pt in r.payloadTypes
  }

  /** Whether a frame that is asked about fits given restrictions. */
  type Permits = Restrictions -> bool

  predicate Permitted(t: RidTable, ids: seq<string>, pt: string, direction: string, permits: Permits) {
    exists i :: && 0 <= i < |ids| && Lookup(t, ids[i], direction).Some?
                && PayloadAllowed(Lookup(t, ids[i], direction).value, pt)
                && permits(Lookup(t, ids[i], direction).value.restrictions)
  }

  /** A restriction that applies to a payload type when there is no simulcast. */
  predicate Applies(t: RidTable, r: Rid, pt: string, direction: string) {
    r.id !in t.duplicate && r.direction == direction && PayloadAllowed(r, pt)
  }

  predicate Unrestricted(t: RidTable, pt: string, direction: string) {
    forall i | 0 <= i < |t.rids| :: !Applies(t, t.rids[i], pt, direction)
  }

  predicate SomePermits(t: RidTable, pt: string, direction: string, permits: Permits) {
    exists i :: 0 <= i < |t.rids| && Applies(t, t.rids[i], pt, direction) && permits(t.rids[i].restrictions)
  }

  /** With simulcast, one of its streams has to permit the frame; without, one of the restrictions that
      apply, if any does. */
  predicate FramePermitted(s: Section, pt: string, direction: string, permits: Permits) {
    var ids := SimulcastRids(s.simulcasts, direction);
    if ids.Some? then Permitted(s.table, ids.value, pt, direction, permits)
    else Unrestricted(s.table, pt, direction) || SomePermits(s.table, pt, direction, permits)
  }

  method CheckFrame(s: Section, pt: string, direction: string, permits: Permits) returns (ok: bool)
    ensures ok == FramePermitted(s, pt, direction, permits)
  {
    var ids := SimulcastRids(s.simulcasts, direction);
    if ids.Some? {
      for i := 0 to |ids.value|
        invariant forall k | 0 <= k < i ::
                    var r := Lookup(s.table, ids.value[k], direction);
                    !(r.Some? && PayloadAllowed(r.value, pt) && permits(r.value.restrictions))
      {
        var r := Lookup(s.table, ids.value[i], direction);
        if r.None? || !PayloadAllowed(r.value, pt) {
          continue;
        }
        if permits(r.value.restrictions) {
          return true;
        }
      }
      return false;
    }
    var matched := false;
    var rids := s.table.rids;
    for i := 0 to |rids|
      invariant matched <==> exists k :: 0 <= k < i && Applies(s.table, rids[k], pt, direction)
      invariant forall k | 0 <= k < i :: !(Applies(s.table, rids[k], pt, direction) && permits(rids[k].restrictions))
    {
      if rids[i].id in s.table.duplicate || rids[i].direction != direction || !PayloadAllowed(rids[i], pt) {
        continue;
      }
      matched := true;
      if permits(rids[i].restrictions) {
        return true;
      }
    }
    return !matched;
  }

  // ----- what a frame needs -----------------------------------------------------------------

  /** Some alternative of some stream has the identifier. */
  ghost predicate Listed(ss: seq<Stream>, id: string) {
    exists i, j :: 0 <= i < |ss| && 0 <= j < |ss[i]| && ss[i][j].rid == id
  }

  lemma {:induction false} ListedIff(ss: seq<Stream>, id: string)
    ensures id in RidsOf(ss) <==> Listed(ss, id)
  {
    if ss != [] {
      var front, last := ss[..|ss| - 1], |ss| - 1;
      ListedIff(front, id);
      if id in RidsOfStream(ss[last]) {
        var j :| 0 <= j < |ss[last]| && RidsOfStream(ss[last])[j] == id;
        assert ss[last][j].rid == id;
      }
      if Listed(front, id) {
        var i, j :| 0 <= i < |front| && 0 <= j < |front[i]| && front[i][j].rid == id;
        assert ss[i][j].rid == id;
      }
      if i, j :| 0 <= i < |ss| && 0 <= j < |ss[i]| && ss[i][j].rid == id {
        if i == last {
          assert RidsOfStream(ss[last])[j] == id;
        } else {
          assert front[i][j].rid == id;
        }
      }
    }
  }

  /** The streams of a direction; there are none for other names. */
  function StreamsFor(c: Simulcast, direction: string): seq<Stream> {
    match direction
    case "send" => c.send
    case "recv" => c.receive
    case _ => []
  }

  /** The restriction is for the direction, it is the only one with its identifier, and it names the payload type or
      none at all. */
  ghost predicate Binding(rids: seq<Rid>, i: nat, pt: string, direction: string)
    requires i < |rids|
  {
    && rids[i].direction == direction && (forall j | 0 <= j < |rids| && rids[j].id == rids[i].id :: j == i)
    && (|rids[i].payloadTypes| == 0 || exists k :: 0 <= k < |rids[i].payloadTypes| && rids[i].payloadTypes[k] == pt)
  }

  lemma AllowedIff(r: Rid, pt: string)
    ensures PayloadAllowed(r, pt) <==> |r.payloadTypes| == 0 || exists k :: 0 <= k < |r.payloadTypes| && r.payloadTypes[k] == pt
  {
  }

  /** A table as gathered: an identifier is marked exactly if two restrictions have it. */
  ghost predicate Consistent(t: RidTable) {
    forall id :: id in t.duplicate <==> Repeated(t.rids, id)
  }

  lemma AppliesIff(t: RidTable, i: nat, pt: string, direction: string)
    requires Consistent(t) && i < |t.rids|
    ensures Applies(t, t.rids[i], pt, direction) <==> Binding(t.rids, i, pt, direction)
  {
    AllowedIff(t.rids[i], pt);
    RepeatedAt(t.rids, i);
  }

  lemma RepeatedAt(rids: seq<Rid>, i: nat)
    requires i < |rids|
    ensures !Repeated(rids, rids[i].id) <==> forall j | 0 <= j < |rids| && rids[j].id == rids[i].id :: j == i
  {
    if j :| 0 <= j < |rids| && rids[j].id == rids[i].id && j != i {
      var a, b := if i < j then i else j, if i < j then j else i;
      assert rids[a].id == rids[i].id && rids[b].id == rids[i].id;
    }
  }

  lemma LookupIff(t: RidTable, id: string, direction: string, pt: string, r: Rid)
    requires Consistent(t)
    ensures Lookup(t, id, direction) == Some(r) && PayloadAllowed(r, pt) <==>
              exists i :: 0 <= i < |t.rids| && t.rids[i] == r && r.id == id && Binding(t.rids, i, pt, direction)
  {
    FirstRidFound(t.rids, id, direction);
    if Lookup(t, id, direction) == Some(r) && PayloadAllowed(r, pt) {
      var i :| 0 <= i < |t.rids| && t.rids[i] == r;
      AppliesIff(t, i, pt, direction);
    }
    if i :| 0 <= i < |t.rids| && t.rids[i] == r && r.id == id && Binding(t.rids, i, pt, direction) {
      AppliesIff(t, i, pt, direction);
      var found := FirstRid(t.rids, id, direction);
      assert found.Some?;
      var j :| 0 <= j < |t.rids| && t.rids[j] == found.value;
      assert j == i;
    }
  }

  /** The section's only simulcast line has streams for the direction. */
  predicate Simulcasting(c: Simulcasts, direction: string) {
    c.seen && !c.duplicate && |StreamsFor(c.last, direction)| > 0
  }

  /** Some restriction that binds the frame, and one of the streams if some are given, permits it. */
  ghost predicate Permitting(rids: seq<Rid>, pt: string, direction: string, permits: Permits, streams: Option<seq<Stream>>) {
    exists i :: && 0 <= i < |rids| && Binding(rids, i, pt, direction) && permits(rids[i].restrictions)
                && (streams.Some? ==> Listed(streams.value, rids[i].id))
  }

  /** Whether a frame is permitted: with simulcast for the direction, some restriction that one of its streams names
      must permit it; without, it is permitted also if no restriction binds it, as when there are none. */
  lemma FrameIff(s: Section, pt: string, direction: string, permits: Permits)
    requires Consistent(s.table)
    ensures FramePermitted(s, pt, direction, permits) <==>
              if Simulcasting(s.simulcasts, direction) then
                Permitting(s.table.rids, pt, direction, permits, Some(StreamsFor(s.simulcasts.last, direction)))
              else
                || (forall i | 0 <= i < |s.table.rids| :: !Binding(s.table.rids, i, pt, direction))
                || Permitting(s.table.rids, pt, direction, permits, None)
  {
    if Simulcasting(s.simulcasts, direction) {
      StreamsPermit(s.table, StreamsFor(s.simulcasts.last, direction), pt, direction, permits);
    } else {
      forall i | 0 <= i < |s.table.rids|
        ensures Applies(s.table, s.table.rids[i], pt, direction) <==> Binding(s.table.rids, i, pt, direction)
      {
        AppliesIff(s.table, i, pt, direction);
      }
    }
  }

  lemma StreamsPermit(t: RidTable, ss: seq<Stream>, pt: string, direction: string, permits: Permits)
    requires Consistent(t)
    ensures Permitted(t, RidsOf(ss), pt, direction, permits) <==> Permitting(t.rids, pt, direction, permits, Some(ss))
  {
    var ids := RidsOf(ss);
    if i :| 0 <= i < |ids| && Lookup(t, ids[i], direction).Some? && PayloadAllowed(Lookup(t, ids[i], direction).value, pt)
            && permits(Lookup(t, ids[i], direction).value.restrictions) {
      LookupIff(t, ids[i], direction, pt, Lookup(t, ids[i], direction).value);
      ListedIff(ss, ids[i]);
    }
    if i :| 0 <= i < |t.rids| && Binding(t.rids, i, pt, direction) && permits(t.rids[i].restrictions) && Listed(ss, t.rids[i].id) {
      LookupIff(t, t.rids[i].id, direction, pt, t.rids[i]);
      ListedIff(ss, t.rids[i].id);
      var j :| 0 <= j < |ids| && ids[j] == t.rids[i].id;
    }
  }

  /** The sections that the scan gathers are such. */
  lemma GatheredConsistent(m: MediaLine, d: string, body: seq<Item>)
    requires ReadsAttributes(m)
    ensures Consistent(Gathered(NewSection(m, d), body).table)
  {
    forall id
      ensures var t := Gathered(NewSection(m, d), body).table; id in t.duplicate <==> Repeated(t.rids, id)
    {
      RidsAre(m, d, body, id);
    }
  }
}
