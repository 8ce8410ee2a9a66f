/**
 Simulcast descriptions: the a=simulcast attribute of RFC 8853 section 5.1.
 */
module SdpSimulcast {
  import opened Values
  import opened Text
  import opened SdpRid

  // ----- values -----------------------------------------------------------------------------

  datatype Alternative = Alternative(rid: string, paused: bool)

  /** One stream: its alternatives, the preferred one first. */
  type Stream = seq<Alternative>

  datatype Simulcast = Simulcast(send: seq<Stream>, receive: seq<Stream>)

  function RidsOfStream(s: Stream): seq<string> {
    seq(|s|, i requires 0 <= i < |s| => s[i].rid)
  }

  /** All identifiers of a direction, in order. */
  function RidsOf(ss: seq<Stream>): seq<string> {
    if ss == [] then [] else RidsOf(ss[..|ss| - 1]) + RidsOfStream(ss[|ss| - 1])
  }

  predicate NoRepeats(ids: seq<string>) {
    forall i, j | 0 <= i < j < |ids| :: ids[i] != ids[j]
  }

  predicate ValidStream(s: Stream) {
    s != [] && forall i | 0 <= i < |s| :: ValidId(s[i].rid)
  }

  /** No empty stream, valid identifiers, and none of them twice in a direction. */
  predicate ValidStreams(ss: seq<Stream>) {
    && (forall i | 0 <= i < |ss| :: ValidStream(ss[i]))
    && NoRepeats(RidsOf(ss))
  }

  predicate ValidSimulcast(s: Simulcast) {
    && (s.send != [] || s.receive != [])
    && ValidStreams(s.send) && ValidStreams(s.receive)
  }

  // ----- the check with a table of identifiers seen -----------------------------------------

  function Seen(ids: seq<string>): set<string> {
    set i | 0 <= i < |ids| :: ids[i]
  }

  lemma NoRepeatsSnoc(ids: seq<string>, id: string)
    ensures NoRepeats(ids + [id]) <==> NoRepeats(ids) && id !in Seen(ids)
  {
    var all := ids + [id];
    assert forall i | 0 <= i < |ids| :: all[i] == ids[i];
    assert all[|ids|] == id;
  }

  lemma NoRepeatsPrefix(ids: seq<string>, more: seq<string>)
    requires NoRepeats(ids + more)
    ensures NoRepeats(ids)
  {
    assert forall i | 0 <= i < |ids| :: (ids + more)[i] == ids[i];
  }

  lemma {:induction false} RidsPrefix(ss: seq<Stream>, k: nat) returns (more: seq<string>)
    requires k <= |ss|
    ensures RidsOf(ss) == RidsOf(ss[..k]) + more
  {
    if k == |ss| {
      assert ss[..k] == ss;
      more := [];
    } else {
      var front := ss[..|ss| - 1];
      more := RidsPrefix(front, k);
      assert front[..k] == ss[..k];
      more := more + RidsOfStream(ss[|ss| - 1]);
    }
  }

  /** The identifiers up to alternative j of stream k. */
  function RidsUpTo(ss: seq<Stream>, k: nat, j: nat): seq<string>
    requires k < |ss| && j <= |ss[k]|
  {
    RidsOf(ss[..k]) + RidsOfStream(ss[k])[..j]
  }

  lemma RidsStep(ss: seq<Stream>, k: nat, j: nat)
    requires k < |ss| && j < |ss[k]|
    ensures RidsUpTo(ss, k, j + 1) == RidsUpTo(ss, k, j) + [ss[k][j].rid]
  {
    var r := RidsOfStream(ss[k]);
    assert r[..j + 1] == r[..j] + [r[j]];
  }

  lemma RidsStream(ss: seq<Stream>, k: nat)
    requires k < |ss|
    ensures RidsOf(ss[..k + 1]) == RidsUpTo(ss, k, |ss[k]|)
  {
    assert ss[..k + 1][..k] == ss[..k];
    assert RidsOfStream(ss[k])[..|ss[k]|] == RidsOfStream(ss[k]);
  }

  /** A repetition among the first identifiers is one among all. */
  lemma {:induction false} RepeatStays(ss: seq<Stream>, k: nat, j: nat)
    requires k < |ss| && j <= |ss[k]| && NoRepeats(RidsOf(ss))
    ensures NoRepeats(RidsUpTo(ss, k, j))
  {
    var more := RidsPrefix(ss, k + 1);
    NoRepeatsPrefix(RidsOf(ss[..k + 1]), more);
    RidsStream(ss, k);
    var ids, r := RidsOf(ss[..k]), RidsOfStream(ss[k]);
    assert r[..|r|] == r && RidsOf(ss[..k + 1]) == ids + r;
    NoRepeatsInside(ids, r, j);
  }

  lemma {:induction false} NoRepeatsInside(ids: seq<string>, r: seq<string>, j: nat)
    requires j <= |r| && NoRepeats(ids + r)
    ensures NoRepeats(ids + r[..j])
  {
    assert ids + r == (ids + r[..j]) + r[j..];
    NoRepeatsPrefix(ids + r[..j], r[j..]);
  }

  method Validate(ss: seq<Stream>) returns (ok: bool)
    ensures ok == ValidStreams(ss)
  {
    var seen: set<string> := {};
    for k := 0 to |ss|
      invariant forall i | 0 <= i < k :: ValidStream(ss[i])
      invariant NoRepeats(RidsOf(ss[..k])) && seen == Seen(RidsOf(ss[..k]))
    {
      if ss[k] == [] {
        return false;
      }
      assert RidsUpTo(ss, k, 0) == RidsOf(ss[..k]);
      for j := 0 to |ss[k]|
        invariant forall i | 0 <= i < j :: ValidId(ss[k][i].rid)
        invariant NoRepeats(RidsUpTo(ss, k, j)) && seen == Seen(RidsUpTo(ss, k, j))
      {
        var id := ss[k][j].rid;
        RidsStep(ss, k, j);
        NoRepeatsSnoc(RidsUpTo(ss, k, j), id);
        if !ValidId(id) || id in seen {
          if NoRepeats(RidsOf(ss)) {
            RepeatStays(ss, k, j + 1);
          }
          return false;
        }
        SeenSnoc(RidsUpTo(ss, k, j), id);
        seen := seen + {id};
      }
      RidsStream(ss, k);
    }
    assert ss[..|ss|] == ss;
    return true;
  }

  lemma SeenSnoc(ids: seq<string>, id: string)
    ensures Seen(ids + [id]) == Seen(ids) + {id}
  {
    var all := ids + [id];
    assert forall i | 0 <= i < |ids| :: all[i] == ids[i];
    assert all[|ids|] == id;
    forall x | x in Seen(ids) + {id}
      ensures x in Seen(all)
    {
      if x in Seen(ids) {
        var i :| 0 <= i < |ids| && ids[i] == x;
        assert all[i] == x;
      }
    }
  }

  // ----- printing ---------------------------------------------------------------------------

  function AlternativeText(a: Alternative): string {
    (if a.paused then "~" else "") + a.rid
  }

  function AlternativeTexts(s: Stream): (r: seq<string>)
    ensures |r| == |s| && forall i | 0 <= i < |s| :: r[i] == AlternativeText(s[i])
  {
    seq(|s|, i requires 0 <= i < |s| => AlternativeText(s[i]))
  }

  function StreamText(s: Stream): string {
    Join(AlternativeTexts(s), ',')
  }

  function StreamTexts(ss: seq<Stream>): (r: seq<string>)
    ensures |r| == |ss| && forall i | 0 <= i < |ss| :: r[i] == StreamText(ss[i])
  {
    seq(|ss|, i requires 0 <= i < |ss| => StreamText(ss[i]))
  }

  function StreamsText(ss: seq<Stream>): string {
    Join(StreamTexts(ss), ';')
  }

  /** The words after the attribute's name. */
  function PrintedWords(s: Simulcast): seq<string> {
    (if s.send == [] then [] else ["send", StreamsText(s.send)])
    + (if s.receive == [] then [] else ["recv", StreamsText(s.receive)])
  }

  function Printed(s: Simulcast): string {
    "a=simulcast:" + Join(PrintedWords(s), ' ')
  }

  method AppendStream(dst: string, s: Stream) returns (out: string)
    ensures out == dst + StreamText(s)
  {
    out := dst;
    var texts := AlternativeTexts(s);
    for j := 0 to |s|
      invariant out == dst + Join(texts[..j], ',')
    {
      assert texts[..j + 1] == texts[..j] + [texts[j]];
      if j > 0 {
        JoinSnoc(texts[..j], texts[j], ',');
        out := out + ",";
      }
      if s[j].paused {
        out := out + "~";
      }
      out := out + s[j].rid;
    }
    assert texts[..|s|] == texts;
  }

  method AppendStreams(dst: string, ss: seq<Stream>) returns (out: string)
    ensures out == dst + StreamsText(ss)
  {
    out := dst;
    var texts := StreamTexts(ss);
    for i := 0 to |ss|
      invariant out == dst + Join(texts[..i], ';')
    {
      assert texts[..i + 1] == texts[..i] + [texts[i]];
      if i > 0 {
        JoinSnoc(texts[..i], texts[i], ';');
        out := out + ";";
      }
      out := AppendStream(out, ss[i]);
    }
    assert texts[..|ss|] == texts;
  }

  method Append(dst: string, s: Simulcast) returns (out: Result<string>)
    ensures out == if ValidSimulcast(s) then Ok(dst + Printed(s)) else Err
  {
    var sendOk := Validate(s.send);
    var receiveOk := Validate(s.receive);
    if (s.send == [] && s.receive == []) || !sendOk || !receiveOk {
      return Err;
    }
    var text := "";
    if s.send != [] {
      text := AppendStreams("send" + " ", s.send);
    }
    if s.receive != [] {
      text := AppendStreams(text + (if s.send == [] then "" else " ") + ("recv" + " "), s.receive);
    }
    WordsJoin(s);
    assert s.send == [] ==> "" + "" + ("recv" + " ") == "recv" + " ";
    return Ok(dst + ("a=simulcast:" + text));
  }

  lemma JoinTwo(a: string, b: string)
    ensures Join([a, b], ' ') == a + " " + b
  {
    assert [a, b][1..] == [b];
  }

  lemma WordsJoin(s: Simulcast)
    requires s.send != [] || s.receive != []
    ensures var a, b := StreamsText(s.send), StreamsText(s.receive);
            Join(PrintedWords(s), ' ') ==
              if s.receive == [] then "send" + " " + a
              else if s.send == [] then "recv" + " " + b
              else "send" + " " + a + " " + ("recv" + " ") + b
  {
    var a, b := StreamsText(s.send), StreamsText(s.receive);
    JoinTwo("send", a);
    JoinTwo("recv", b);
    if s.send != [] && s.receive != [] {
      var ws := ["send", a, "recv", b];
      assert PrintedWords(s) == ws;
      assert ws[1..] == [a, "recv", b] && [a, "recv", b][1..] == ["recv", b];
    }
  }

  // ----- reading ----------------------------------------------------------------------------

  function AlternativeOf(text: string): Result<Alternative> {
    var t := Trim(text);
    if t == "" then Err
    else
      var paused := t[0] == '~';
      var id := if paused then t[1..] else t;
      if ValidId(id) then Ok(Alternative(id, paused)) else Err
  }

  /** Reads the first k of a list of texts with a given reader; an error is an error of the whole. */
  function ReadAll<T>(read: string -> Result<T>, texts: seq<string>, k: nat): Result<seq<T>>
    requires k <= |texts|
  {
    if k == 0 then Ok([])
    else
      var front, last := ReadAll(read, texts, k - 1), read(texts[k - 1]);
      if front.Err? || last.Err? then Err else Ok(front.value + [last.value])
  }

  lemma {:induction false} ReadAllFails<T>(read: string -> Result<T>, texts: seq<string>, k: nat, m: nat)
    requires k <= m <= |texts| && ReadAll(read, texts, k).Err?
    ensures ReadAll(read, texts, m).Err?
  {
    if k < m {
      ReadAllFails(read, texts, k, m - 1);
    }
  }

  lemma {:induction false} ReadAllReads<T>(read: string -> Result<T>, texts: seq<string>, vs: seq<T>, k: nat)
    requires k <= |texts| == |vs| && forall i | 0 <= i < |vs| :: read(texts[i]) == Ok(vs[i])
    ensures ReadAll(read, texts, k) == Ok(vs[..k])
  {
    if k > 0 {
      ReadAllReads(read, texts, vs, k - 1);
      assert vs[..k] == vs[..k - 1] + [vs[k - 1]];
    }
  }

  method ReadEach<T>(read: string -> Result<T>, texts: seq<string>) returns (res: Result<seq<T>>)
    ensures res == ReadAll(read, texts, |texts|)
  {
    var vs := [];
    for j := 0 to |texts|
      invariant ReadAll(read, texts, j) == Ok(vs)
    {
      var v := read(texts[j]);
      if v.Err? {
        ReadAllFails(read, texts, j + 1, |texts|);
        return Err;
      }
      vs := vs + [v.value];
    }
    return Ok(vs);
  }

  function StreamAt(text: string): Result<Stream> {
    if text == "" then Err else ReadAll(AlternativeOf, Split(text, ','), |Split(text, ',')|)
  }

  function StreamsOf(text: string): Result<seq<Stream>> {
    var res := if text == "" then Err else ReadAll(StreamAt, Split(text, ';'), |Split(text, ';')|);
    if res.Ok? && ValidStreams(res.value) then res else Err
  }

  /** The loop over the streams, with the check at its end. */
  method ParseStreams(text: string) returns (res: Result<seq<Stream>>)
    ensures res == StreamsOf(text)
  {
    if text == "" {
      return Err;
    }
    var parts := Split(text, ';');
    res := ReadEach(StreamAt, parts);
    if res.Ok? {
      var ok := Validate(res.value);
      if !ok {
        return Err;
      }
    }
  }

  /** What has been read: None for a direction not met yet. */
  datatype Halves = Halves(send: Option<seq<Stream>>, receive: Option<seq<Stream>>)

  type Reader = string -> Result<seq<Stream>>

  /** Reads pairs of a direction and its streams, from the i-th field on; no direction twice. */
  function FromPairs(name: string -> string, read: Reader, acc: Halves, fields: seq<string>, i: nat): Result<Halves>
    requires i <= |fields| && (|fields| - i) % 2 == 0
    decreases |fields| - i
  {
    if i == |fields| then Ok(acc)
    else
      var dir, streams := name(fields[i]), read(fields[i + 1]);
      if streams.Err? then Err
      else if dir == "send" && acc.send.None? then FromPairs(name, read, acc.(send := Some(streams.value)), fields, i + 2)
      else if dir == "recv" && acc.receive.None? then FromPairs(name, read, acc.(receive := Some(streams.value)), fields, i + 2)
      else Err
  }

  function Collected(h: Halves): Simulcast {
    Simulcast(if h.send.Some? then h.send.value else [], if h.receive.Some? then h.receive.value else [])
  }

  predicate RightCount(fields: seq<string>) {
    |fields| != 0 && |fields| % 2 == 0 && |fields| <= 4
  }

  function SimulcastOf(line: string): Result<Simulcast> {
    var fields := Fields(AfterPrefix(Trim(line), "a=simulcast:"));
    if !RightCount(fields) then Err
    else
      var h := FromPairs(Canonical, StreamsOf, Halves(None, None), fields, 0);
      if h.Ok? && ValidSimulcast(Collected(h.value)) then Ok(Collected(h.value)) else Err
  }

  /** The loop over the pairs, with its flags. */
  method ReadPairs(name: string -> string, read: Reader, fields: seq<string>) returns (res: Result<Simulcast>)
    requires |fields| % 2 == 0
    ensures var h := FromPairs(name, read, Halves(None, None), fields, 0);
            res == if h.Ok? then Ok(Collected(h.value)) else Err
  {
    var out := Simulcast([], []);
    var sawSend, sawReceive := false, false;
    var i := 0;
    while i < |fields|
      invariant 0 <= i <= |fields| && i % 2 == 0
      invariant (!sawSend ==> out.send == []) && (!sawReceive ==> out.receive == [])
      invariant FromPairs(name, read, Halves(None, None), fields, 0) ==
                FromPairs(name, read, Halves(if sawSend then Some(out.send) else None, if sawReceive then Some(out.receive) else None), fields, i)
    {
      var direction := name(fields[i]);
      var streams := read(fields[i + 1]);
      if streams.Err? {
        return Err;
      }
      if direction == "send" {
        if sawSend {
          return Err;
        }
        out, sawSend := out.(send := streams.value), true;
      } else if direction == "recv" {
        if sawReceive {
          return Err;
        }
        out, sawReceive := out.(receive := streams.value), true;
      } else {
        return Err;
      }
      i := i + 2;
    }
    return Ok(out);
  }

  method Parse(line: string) returns (res: Result<Simulcast>)
    ensures res == SimulcastOf(line)
  {
    var fields := Fields(AfterPrefix(Trim(line), "a=simulcast:"));
    if !RightCount(fields) {
      return Err;
    }
    res := ReadPairs(Canonical, StreamsOf, fields);
    if res.Ok? {
      var sendOk := Validate(res.value.send);
      var receiveOk := Validate(res.value.receive);
      if (res.value.send == [] && res.value.receive == []) || !sendOk || !receiveOk {
        return Err;
      }
    }
  }

  // ----- round trip -------------------------------------------------------------------------

  lemma AlternativeReads(a: Alternative)
    requires ValidId(a.rid)
    ensures AlternativeOf(AlternativeText(a)) == Ok(a)
    ensures NoSpace(AlternativeText(a)) && AlternativeText(a) != "" && ',' !in AlternativeText(a) && ';' !in AlternativeText(a)
  {
    IdText(a.rid);
    var t := AlternativeText(a);
    assert NoSpace(t);
    TrimId(t);
    assert IdChar(a.rid[0]);
    if a.paused {
      assert t[1..] == a.rid;
    } else {
      assert t == a.rid;
    }
  }

  lemma {:induction false} JoinNoSpace(parts: seq<string>, c: char)
    requires !IsSpace(c) && forall i | 0 <= i < |parts| :: NoSpace(parts[i])
    ensures NoSpace(Join(parts, c))
    ensures parts != [] && parts[0] != "" ==> Join(parts, c) != ""
  {
    if |parts| > 1 {
      JoinNoSpace(parts[1..], c);
    }
  }

  lemma StreamReads(s: Stream)
    requires ValidStream(s)
    ensures StreamText(s) != "" && NoSpace(StreamText(s)) && ';' !in StreamText(s)
    ensures StreamAt(StreamText(s)) == Ok(s)
  {
    var texts := AlternativeTexts(s);
    forall i | 0 <= i < |s|
      ensures NoSpace(texts[i]) && texts[i] != "" && ',' !in texts[i] && ';' !in texts[i]
      ensures AlternativeOf(texts[i]) == Ok(s[i])
    {
      AlternativeReads(s[i]);
    }
    ReadAllReads(AlternativeOf, texts, s, |s|);
    assert s[..|s|] == s;
    SplitJoin(texts, ',');
    JoinNoSpace(texts, ',');
    JoinContains(texts, ',', ';');
  }

  lemma StreamsReadBack(ss: seq<Stream>)
    requires ValidStreams(ss) && ss != []
    ensures StreamsOf(StreamsText(ss)) == Ok(ss)
    ensures NoSpace(StreamsText(ss)) && StreamsText(ss) != ""
  {
    var texts := StreamTexts(ss);
    forall i | 0 <= i < |ss|
      ensures NoSpace(texts[i]) && texts[i] != "" && ';' !in texts[i] && StreamAt(texts[i]) == Ok(ss[i])
    {
      StreamReads(ss[i]);
    }
    ReadAllReads(StreamAt, texts, ss, |ss|);
    assert ss[..|ss|] == ss;
    SplitJoin(texts, ';');
    JoinNoSpace(texts, ';');
  }

  lemma DirectionWords()
    ensures NoSpace("send") && NoSpace("recv")
    ensures ToLower(Trim("send")) == "send" && ToLower(Trim("recv")) == "recv"
  {
    TrimId("send");
    TrimId("recv");
  }

  lemma TwoWords(a: string, b: string)
    requires a != "" && NoSpace(a) && b != "" && NoSpace(b)
    ensures AreWords([a, b])
  {
  }

  lemma MoreWords(a: seq<string>, b: seq<string>)
    requires AreWords(a) && AreWords(b)
    ensures AreWords(a + b)
  {
  }

  function SendWords(s: Simulcast): seq<string> {
    if s.send == [] then [] else ["send", StreamsText(s.send)]
  }

  function ReceiveWords(s: Simulcast): seq<string> {
    if s.receive == [] then [] else ["recv", StreamsText(s.receive)]
  }

  lemma SendWordsText(s: Simulcast)
    requires ValidStreams(s.send)
    ensures AreWords(SendWords(s))
  {
    if s.send != [] {
      DirectionWords();
      StreamsReadBack(s.send);
      TwoWords("send", StreamsText(s.send));
    }
  }

  lemma ReceiveWordsText(s: Simulcast)
    requires ValidStreams(s.receive)
    ensures AreWords(ReceiveWords(s))
  {
    if s.receive != [] {
      DirectionWords();
      StreamsReadBack(s.receive);
      TwoWords("recv", StreamsText(s.receive));
    }
  }

  lemma WordsText(s: Simulcast)
    requires ValidSimulcast(s)
    ensures AreWords(PrintedWords(s)) && |PrintedWords(s)| % 2 == 0 && 0 < |PrintedWords(s)| <= 4
  {
    SendWordsText(s);
    ReceiveWordsText(s);
    MoreWords(SendWords(s), ReceiveWords(s));
  }

  /** The words as a reader sees them. */
  lemma PairsRead(name: string -> string, read: Reader, s: Simulcast, ws: seq<string>)
    requires name("send") == "send" && name("recv") == "recv"
    requires s.send != [] ==> read(StreamsText(s.send)) == Ok(s.send)
    requires s.receive != [] ==> read(StreamsText(s.receive)) == Ok(s.receive)
    requires ws == SendWords(s) + ReceiveWords(s) && |ws| % 2 == 0
    ensures FromPairs(name, read, Halves(None, None), ws, 0) ==
              Ok(Halves(if s.send == [] then None else Some(s.send), if s.receive == [] then None else Some(s.receive)))
  {
    var none := Halves(None, None);
    var acc, i: nat := none, 0;
    if s.send != [] {
      assert ws[0] == "send" && ws[1] == StreamsText(s.send);
      acc, i := none.(send := Some(s.send)), 2;
    }
    assert FromPairs(name, read, none, ws, 0) == FromPairs(name, read, acc, ws, i);
    if s.receive != [] {
      assert ws[i] == "recv" && ws[i + 1] == StreamsText(s.receive);
      assert FromPairs(name, read, acc, ws, i) == FromPairs(name, read, acc.(receive := Some(s.receive)), ws, i + 2);
    }
  }

  lemma WordsRead(s: Simulcast)
    requires ValidSimulcast(s) && |PrintedWords(s)| % 2 == 0
    ensures FromPairs(Canonical, StreamsOf, Halves(None, None), PrintedWords(s), 0) ==
              Ok(Halves(if s.send == [] then None else Some(s.send), if s.receive == [] then None else Some(s.receive)))
  {
    DirectionWords();
    if s.send != [] {
      StreamsReadBack(s.send);
    }
    if s.receive != [] {
      StreamsReadBack(s.receive);
    }
    PairsRead(Canonical, StreamsOf, s, PrintedWords(s));
  }

  /** Round trip: every valid value is read back from what is printed, with its streams, alternatives,
      order and paused marks. */
  lemma RoundTrip(s: Simulcast)
    requires ValidSimulcast(s)
    ensures SimulcastOf(Printed(s)) == Ok(s)
  {
    WordsText(s);
    WordsRead(s);
    FieldsJoin(PrintedWords(s));
    AttributeFields("a=simulcast:", Join(PrintedWords(s), ' '));
  }

  /** Whatever is read is valid: no empty stream, and no identifier twice in a direction. */
  lemma ReadIsValid(line: string)
    requires SimulcastOf(line).Ok?
    ensures var s := SimulcastOf(line).value;
            ValidSimulcast(s) && NoRepeats(RidsOf(s.send)) && NoRepeats(RidsOf(s.receive))
            && SimulcastOf(Printed(s)) == Ok(s)
  {
    RoundTrip(SimulcastOf(line).value);
  }

  // ----- what a text says -------------------------------------------------------------------

  /** An alternative is its identifier, after a tilde if it is paused, with spaces around it or not. */
  lemma AlternativeIff(text: string, a: Alternative)
    ensures AlternativeOf(text) == Ok(a) <==> ValidId(a.rid) && Trim(text) == if a.paused then ['~'] + a.rid else a.rid
  {
    var t := Trim(text);
    if t != "" && t[0] == '~' {
      assert t == ['~'] + t[1..];
    }
    if ValidId(a.rid) {
      assert IdChar(a.rid[0]);
      assert (['~'] + a.rid)[1..] == a.rid;
    }
  }

  lemma {:induction false} ReadAllIff<T>(read: string -> Result<T>, texts: seq<string>, vs: seq<T>, k: nat)
    requires k <= |texts| == |vs|
    ensures ReadAll(read, texts, k) == Ok(vs[..k]) <==> forall i | 0 <= i < k :: read(texts[i]) == Ok(vs[i])
  {
    if k > 0 {
      ReadAllIff(read, texts, vs, k - 1);
      assert vs[..k] == vs[..k - 1] + [vs[k - 1]];
      var front := ReadAll(read, texts, k - 1);
      if front.Ok? && read(texts[k - 1]).Ok? {
        SnocIs(front.value, read(texts[k - 1]).value, vs[..k - 1], vs[k - 1]);
      }
    }
  }

  lemma SnocIs<T>(a: seq<T>, x: T, b: seq<T>, y: T)
    ensures a + [x] == b + [y] <==> a == b && x == y
  {
    if a + [x] == b + [y] {
      assert (a + [x])[..|a|] == a && (b + [y])[..|b|] == b;
      assert (a + [x])[|a|] == x && (b + [y])[|b|] == y;
    }
  }

  lemma {:induction false} ReadAllLength<T>(read: string -> Result<T>, texts: seq<string>, k: nat)
    requires k <= |texts|
    ensures ReadAll(read, texts, k).Ok? ==> |ReadAll(read, texts, k).value| == k
  {
    if k > 0 {
      ReadAllLength(read, texts, k - 1);
    }
  }

  lemma ReadAllMeans<T>(read: string -> Result<T>, texts: seq<string>, vs: seq<T>)
    ensures ReadAll(read, texts, |texts|) == Ok(vs) <==>
              |vs| == |texts| && forall i | 0 <= i < |texts| :: read(texts[i]) == Ok(vs[i])
  {
    ReadAllLength(read, texts, |texts|);
    if |vs| == |texts| {
      ReadAllIff(read, texts, vs, |texts|);
      assert vs[..|texts|] == vs;
    }
  }

  /** A stream is its alternatives, with commas between them. */
  ghost predicate SpellsStream(text: string, s: Stream) {
    var parts := Split(text, ',');
    && text != "" && |parts| == |s|
    && forall j | 0 <= j < |s| :: ValidId(s[j].rid) && Trim(parts[j]) == if s[j].paused then ['~'] + s[j].rid else s[j].rid
  }

  lemma StreamIff(text: string, s: Stream)
    ensures StreamAt(text) == Ok(s) <==> SpellsStream(text, s)
  {
    var parts := Split(text, ',');
    ReadAllMeans(AlternativeOf, parts, s);
    forall j | 0 <= j < |parts| && |s| == |parts|
      ensures AlternativeOf(parts[j]) == Ok(s[j]) <==>
                ValidId(s[j].rid) && Trim(parts[j]) == if s[j].paused then ['~'] + s[j].rid else s[j].rid
    {
      AlternativeIff(parts[j], s[j]);
    }
  }

  /** The streams of a direction, with semicolons between them; no identifier may occur twice. */
  ghost predicate SpellsStreams(text: string, ss: seq<Stream>) {
    var parts := Split(text, ';');
    && text != "" && |parts| == |ss| && (forall i | 0 <= i < |ss| :: SpellsStream(parts[i], ss[i]))
    && forall i, j | 0 <= i < j < |RidsOf(ss)| :: RidsOf(ss)[i] != RidsOf(ss)[j]
  }

  lemma StreamsRead(parts: seq<string>, ss: seq<Stream>)
    ensures ReadAll(StreamAt, parts, |parts|) == Ok(ss) <==>
              |ss| == |parts| && forall i | 0 <= i < |ss| :: SpellsStream(parts[i], ss[i])
  {
    ReadAllMeans(StreamAt, parts, ss);
    forall i | 0 <= i < |parts| && |ss| == |parts|
      ensures StreamAt(parts[i]) == Ok(ss[i]) <==> SpellsStream(parts[i], ss[i])
    {
      StreamIff(parts[i], ss[i]);
    }
  }

  lemma StreamsIff(text: string, ss: seq<Stream>)
    ensures StreamsOf(text) == Ok(ss) <==> SpellsStreams(text, ss)
  {
    StreamsRead(Split(text, ';'), ss);
    if SpellsStreams(text, ss) {
      SpelledValid(text, ss);
    }
  }

  lemma SpelledValid(text: string, ss: seq<Stream>)
    requires SpellsStreams(text, ss)
    ensures ValidStreams(ss)
  {
    var parts := Split(text, ';');
    forall i | 0 <= i < |ss|
      ensures ValidStream(ss[i])
    {
      JoinSplit(parts[i], ',');
    }
  }

  /** The words after the attribute's name: one direction and its streams, or both directions in either order. */
  ghost predicate SpellsSimulcast(ws: seq<string>, v: Simulcast) {
    || (|ws| == 2 && ToLower(ws[0]) == "send" && SpellsStreams(ws[1], v.send) && v.receive == [])
    || (|ws| == 2 && ToLower(ws[0]) == "recv" && SpellsStreams(ws[1], v.receive) && v.send == [])
    || (|ws| == 4 && ToLower(ws[0]) == "send" && ToLower(ws[2]) == "recv" && SpellsStreams(ws[1], v.send) && SpellsStreams(ws[3], v.receive))
    || (|ws| == 4 && ToLower(ws[0]) == "recv" && ToLower(ws[2]) == "send" && SpellsStreams(ws[1], v.receive) && SpellsStreams(ws[3], v.send))
  }

  /** One pair of words. */
  lemma PairReads(name: string -> string, read: Reader, acc: Halves, ws: seq<string>, i: nat)
    requires i + 2 <= |ws| && (|ws| - i) % 2 == 0
    ensures FromPairs(name, read, acc, ws, i) ==
              if read(ws[i + 1]).Err? then Err
              else if name(ws[i]) == "send" && acc.send.None? then FromPairs(name, read, acc.(send := Some(read(ws[i + 1]).value)), ws, i + 2)
              else if name(ws[i]) == "recv" && acc.receive.None? then FromPairs(name, read, acc.(receive := Some(read(ws[i + 1]).value)), ws, i + 2)
              else Err
  {
  }

  /** What the pairs of up to four words give. */
  lemma PairsMean(name: string -> string, read: Reader, ws: seq<string>, v: Simulcast)
    requires |ws| == 2 || |ws| == 4
    ensures (exists h :: FromPairs(name, read, Halves(None, None), ws, 0) == Ok(h) && Collected(h) == v) <==>
              || (|ws| == 2 && name(ws[0]) == "send" && read(ws[1]) == Ok(v.send) && v.receive == [])
              || (|ws| == 2 && name(ws[0]) == "recv" && read(ws[1]) == Ok(v.receive) && v.send == [])
              || (|ws| == 4 && name(ws[0]) == "send" && name(ws[2]) == "recv" && read(ws[1]) == Ok(v.send) && read(ws[3]) == Ok(v.receive))
              || (|ws| == 4 && name(ws[0]) == "recv" && name(ws[2]) == "send" && read(ws[1]) == Ok(v.receive) && read(ws[3]) == Ok(v.send))
  {
    PairReads(name, read, Halves(None, None), ws, 0);
    if |ws| == 4 && read(ws[1]).Ok? {
      PairReads(name, read, Halves(Some(read(ws[1]).value), None), ws, 2);
      PairReads(name, read, Halves(None, Some(read(ws[1]).value)), ws, 2);
    }
  }

  function FromHalves(h: Result<Halves>): Result<Simulcast> {
    if h.Ok? && ValidSimulcast(Collected(h.value)) then Ok(Collected(h.value)) else Err
  }

  function FromWords(ws: seq<string>): Result<Simulcast> {
    if !RightCount(ws) then Err else FromHalves(FromPairs(Canonical, StreamsOf, Halves(None, None), ws, 0))
  }

  lemma FromHalvesIs(h: Result<Halves>, v: Simulcast)
    ensures FromHalves(h) == Ok(v) <==> (exists k :: h == Ok(k) && Collected(k) == v) && ValidSimulcast(v)
  {
  }

  lemma FromWordsIff(ws: seq<string>, v: Simulcast)
    requires AreWords(ws)
    ensures FromWords(ws) == Ok(v) <==> SpellsSimulcast(ws, v)
  {
    if |ws| == 2 || |ws| == 4 {
      var h := FromPairs(Canonical, StreamsOf, Halves(None, None), ws, 0);
      assert FromWords(ws) == FromHalves(h);
      calc <==> {
        FromWords(ws) == Ok(v);
        { FromHalvesIs(h, v); }
        (exists k :: h == Ok(k) && Collected(k) == v) && ValidSimulcast(v);
        { PairsMean(Canonical, StreamsOf, ws, v); PairsSpell(ws, v); }
        SpellsSimulcast(ws, v);
      }
    } else {
      assert FromWords(ws) == Err;
      assert !SpellsSimulcast(ws, v);
    }
  }

  lemma SimulcastFrom(body: string)
    ensures SimulcastOf("a=simulcast:" + body) == FromWords(Fields(body))
  {
    AttributeFields("a=simulcast:", body);
  }

  /** A simulcast attribute says v exactly if its words spell it. */
  lemma SimulcastIff(body: string, v: Simulcast)
    ensures SimulcastOf("a=simulcast:" + body) == Ok(v) <==> SpellsSimulcast(Fields(body), v)
  {
    SimulcastFrom(body);
    FieldsAreWords(body);
    FromWordsIff(Fields(body), v);
  }

  lemma PairsSpell(ws: seq<string>, v: Simulcast)
    requires (|ws| == 2 || |ws| == 4) && AreWords(ws)
    ensures SpellsSimulcast(ws, v) <==>
              || (|ws| == 2 && Canonical(ws[0]) == "send" && StreamsOf(ws[1]) == Ok(v.send) && v.receive == [])
              || (|ws| == 2 && Canonical(ws[0]) == "recv" && StreamsOf(ws[1]) == Ok(v.receive) && v.send == [])
              || (|ws| == 4 && Canonical(ws[0]) == "send" && Canonical(ws[2]) == "recv" && StreamsOf(ws[1]) == Ok(v.send) && StreamsOf(ws[3]) == Ok(v.receive))
              || (|ws| == 4 && Canonical(ws[0]) == "recv" && Canonical(ws[2]) == "send" && StreamsOf(ws[1]) == Ok(v.receive) && StreamsOf(ws[3]) == Ok(v.send))
    ensures SpellsSimulcast(ws, v) ==> ValidSimulcast(v)
  {
    TrimId(ws[0]);
    StreamsIff(ws[1], v.send);
    StreamsIff(ws[1], v.receive);
    JoinSplit(ws[1], ';');
    if |ws| == 4 {
      TrimId(ws[2]);
      StreamsIff(ws[3], v.send);
      StreamsIff(ws[3], v.receive);
    }
  }
}
