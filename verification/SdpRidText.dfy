/**
 What the text of a restriction identifier says: exactly which texts are read, and as what.
 */
module SdpRidText {
  import opened Values
  import opened Numbers
  import opened Text
  import opened SdpBitsPerPixel
  import opened SdpRid

  /** A number, where 0 stands for none, or a list. */
  datatype Value = Number(number: Int) | Words(words: seq<string>)

  const COUNT: nat := 9

  function Field(acc: Partial, k: nat): Value
    requires k < COUNT
  {
    if k == 0 then Words(acc.payloadTypes)
    else if k == 8 then Words(acc.restrictions.dependsOn)
    else if k == 7 then Number(acc.restrictions.bitsPerPixel)
    else Number(acc.restrictions.limits[k - 1])
  }

  function Absent(k: nat): Value {
    if k == 0 || k == 8 then Words([]) else Number(0)
  }

  predicate Named(name: string, k: nat) {
    || (k == 0 && name == "pt") || (k == 1 && name == "max-width") || (k == 2 && name == "max-height")
    || (k == 3 && name == "max-fps") || (k == 4 && name == "max-fs") || (k == 5 && name == "max-br")
    || (k == 6 && name == "max-pps") || (k == 7 && name == "max-bpp") || (k == 8 && name == "depend")
  }

  /** A parameter with this text after its equals sign, or without one, has value v. Limits may lack a text. */
  predicate Takes(k: nat, text: Option<string>, v: Value) {
    if k == 0 then text.Some? && text.value != "" && v == Words(Trims(Split(text.value, ','))) && "" !in v.words
    else if k == 8 then text.Some? && text.value != "" && v == Words(Trims(Split(text.value, ','))) && AllValidIds(v.words)
    else if text.None? then v == Number(0)
    else if k == 7 then v.Number? && Parsed(text.value) == Some(v.number)
    else v.Number? && Atoi(text.value) == Some(v.number) && v.number > 0
  }

  /** The part gives parameter k the value v. */
  ghost predicate Gives(part: string, k: nat, v: Value) {
    exists name: string, text: Option<string> :: Spelled(part, name, text, k) && Takes(k, text, v)
  }

  ghost predicate Spelled(part: string, name: string, text: Option<string>, k: nat) {
    && Trim(part) != "" && '=' !in name && Named(ToLower(Trim(name)), k)
    && match text
       case None => Trim(part) == name
       case Some(t) => exists raw :: Trim(part) == name + ['='] + raw && t == Trim(raw)
  }

  /** A part is blank, or it sets a parameter, or it is bad. */
  datatype Part = Blank | Bad | Sets(key: nat, value: Value)

  ghost function Given(part: string): Part {
    if Trim(part) == "" then Blank
    else if k: nat, v :| Gives(part, k, v) then Sets(k, v)
    else Bad
  }

  ghost function AllGiven(parts: seq<string>): (ps: seq<Part>)
    ensures |ps| == |parts| && forall i | 0 <= i < |parts| :: ps[i] == Given(parts[i])
  {
    seq(|parts|, i requires 0 <= i < |parts| => Given(parts[i]))
  }

  /** What has not been met has not been set. */
  ghost predicate Fresh(acc: Partial) {
    forall k | 0 <= k < COUNT && k !in acc.saw :: Field(acc, k) == Absent(k)
  }

  /** The first n parts are blank or set different parameters, and acc holds what they set. */
  ghost predicate Holds(ps: seq<Part>, n: nat, acc: Partial)
    requires n <= |ps|
  {
    && Fresh(acc)
    && (forall i | 0 <= i < n :: ps[i].Blank? || (ps[i].Sets? && ps[i].key < COUNT && ps[i].key in acc.saw && Field(acc, ps[i].key) == ps[i].value))
    && (forall i, j | 0 <= i < j < n && ps[i].Sets? && ps[j].Sets? :: ps[i].key != ps[j].key)
    && (forall k | k in acc.saw :: exists i :: 0 <= i < n && ps[i].Sets? && ps[i].key == k)
  }

  ghost predicate Spells(parts: seq<string>, acc: Partial) {
    Holds(AllGiven(parts), |parts|, acc)
  }

  // ----- one part ---------------------------------------------------------------------------

  function Taken(k: nat, found: bool, text: string): Option<Value> {
    if k == 0 || k == 8 then
      var ws := Trims(Split(text, ','));
      if !found || text == "" || (k == 0 && "" in ws) || (k == 8 && !AllValidIds(ws)) then None else Some(Words(ws))
    else if !found then Some(Number(0))
    else
      var n: Option<int> := if k == 7 then Parsed(text) else Atoi(text);
      if n.None? || (k != 7 && n.value <= 0) then None else Some(Number(n.value))
  }

  function Heard(part: string): Part {
    if Trim(part) == "" then Blank
    else
      var (name, raw, found) := Cut(Trim(part), '=');
      HeardAs(KeyIndex(ToLower(Trim(name))), found, Trim(raw))
  }

  function HeardAs(k: Option<nat>, found: bool, text: string): Part {
    if k.None? then Bad
    else if Taken(k.value, found, text).None? then Bad
    else Sets(k.value, Taken(k.value, found, text).value)
  }

  lemma NamedIs(name: string, k: nat)
    ensures Named(name, k) <==> KeyIndex(name) == Some(k)
  {
  }

  lemma TakenIs(k: nat, found: bool, text: string, v: Value)
    requires k < COUNT
    ensures Taken(k, found, text) == Some(v) <==> Takes(k, if found then Some(text) else None, v)
  {
  }

  lemma SpelledIs(part: string, name: string, text: Option<string>, k: nat)
    requires Spelled(part, name, text, k)
    ensures var (a, raw, found) := Cut(Trim(part), '=');
            a == name && found == text.Some? && (found ==> text.value == Trim(raw))
  {
    if text.Some? {
      var raw :| Trim(part) == name + ['='] + raw && text.value == Trim(raw);
      CutAt(name, '=', raw);
    }
  }

  lemma CutSpells(part: string, k: nat)
    requires Trim(part) != ""
    ensures var (a, raw, found) := Cut(Trim(part), '=');
            Named(ToLower(Trim(a)), k) ==> Spelled(part, a, if found then Some(Trim(raw)) else None, k)
  {
    var (a, raw, found) := Cut(Trim(part), '=');
    if found {
      assert Trim(part) == a + ['='] + raw;
    }
  }

  lemma HeardIff(part: string, k: nat, v: Value)
    ensures Heard(part) == Sets(k, v) <==> Gives(part, k, v)
  {
    var (a, raw, found) := Cut(Trim(part), '=');
    var given := if found then Some(Trim(raw)) else None;
    NamedIs(ToLower(Trim(a)), k);
    if k < COUNT {
      TakenIs(k, found, Trim(raw), v);
    }
    if Gives(part, k, v) {
      var name: string, text: Option<string> :| Spelled(part, name, text, k) && Takes(k, text, v);
      SpelledIs(part, name, text, k);
      assert text == given;
    }
    if Heard(part) == Sets(k, v) {
      CutSpells(part, k);
      assert Spelled(part, a, given, k) && Takes(k, given, v);
    }
  }

  // ----- one part after others --------------------------------------------------------------

  function With(acc: Partial, k: nat, v: Value): Partial
    requires k < COUNT && v.Words? == Absent(k).Words?
  {
    var r := acc.restrictions;
    var saw := acc.saw + {k};
    if k == 0 then Params(r, v.words, saw)
    else if k == 8 then Params(r.(dependsOn := v.words), acc.payloadTypes, saw)
    else if k == 7 then Params(r.(bitsPerPixel := v.number), acc.payloadTypes, saw)
    else Params(r.(limits := r.limits[k - 1 := v.number]), acc.payloadTypes, saw)
  }

  lemma WithField(acc: Partial, k: nat, v: Value, j: nat)
    requires k < COUNT && j < COUNT && v.Words? == Absent(k).Words?
    ensures Field(With(acc, k, v), j) == if j == k then v else Field(acc, j)
  {
  }

  predicate Wellformed(p: Part) {
    p.Sets? ==> p.key < COUNT && p.value.Words? == Absent(p.key).Words?
  }

  function Stepped(acc: Partial, p: Part): Result<Partial>
    requires Wellformed(p)
  {
    match p
    case Blank => Ok(acc)
    case Bad => Err
    case Sets(k, v) => if k in acc.saw then Err else Ok(With(acc, k, v))
  }

  /** Reading the part does what p says. */
  ghost predicate Obeys(step: Step, part: string, p: Part) {
    Wellformed(p) && forall acc: Partial | Fresh(acc) :: step(acc, part) == Stepped(acc, p)
  }

  lemma ValueHeard(acc: Partial, k: nat, found: bool, text: string)
    requires k < COUNT && Field(acc, k) == Absent(k)
    ensures var t := Taken(k, found, text);
            && (t.Some? ==> t.value.Words? == Absent(k).Words?)
            && ReadValue(acc.(saw := acc.saw + {k}), k, found, text) == if t.None? then Err else Ok(With(acc, k, t.value))
  {
    var ws := Trims(Split(text, ','));
    assert [] + ws == ws;
    if 1 <= k <= 6 {
      assert acc.restrictions.limits[k - 1 := 0] == acc.restrictions.limits;
    }
  }

  lemma PartHeard(acc: Partial, part: string)
    requires Fresh(acc)
    ensures Wellformed(Heard(part)) && ReadPart(acc, part) == Stepped(acc, Heard(part))
  {
    var (name, raw, found) := Cut(Trim(part), '=');
    var k := KeyIndex(ToLower(Trim(name)));
    if k.Some? {
      var t := Taken(k.value, found, Trim(raw));
      if k.value !in acc.saw {
        ValueHeard(acc, k.value, found, Trim(raw));
      }
    }
  }

  // ----- all parts --------------------------------------------------------------------------

  ghost predicate Clashes(ps: seq<Part>, n: nat)
    requires n <= |ps|
  {
    || (exists i :: 0 <= i < n && ps[i].Bad?)
    || (exists i, j :: 0 <= i < j < n && ps[i].Sets? && ps[j].Sets? && ps[i].key == ps[j].key)
  }

  ghost predicate Right(ps: seq<Part>, n: nat, res: Result<Partial>)
    requires n <= |ps|
  {
    if res.Ok? then Holds(ps, n, res.value) else Clashes(ps, n)
  }

  lemma NoneHeld(ps: seq<Part>)
    ensures Right(ps, 0, Ok(NO_PARAMS))
  {
  }

  lemma SetHeld(ps: seq<Part>, n: nat, acc: Partial)
    requires n < |ps| && Holds(ps, n, acc) && ps[n].Sets? && Wellformed(ps[n]) && ps[n].key !in acc.saw
    ensures Holds(ps, n + 1, With(acc, ps[n].key, ps[n].value))
  {
    var k, v := ps[n].key, ps[n].value;
    var next := With(acc, k, v);
    forall j: nat | j < COUNT
      ensures Field(next, j) == if j == k then v else Field(acc, j)
    {
      WithField(acc, k, v, j);
    }
    forall j | j in next.saw
      ensures exists i :: 0 <= i < n + 1 && ps[i].Sets? && ps[i].key == j
    {
      if j == k {
        assert ps[n].Sets? && ps[n].key == j;
      } else {
        var i :| 0 <= i < n && ps[i].Sets? && ps[i].key == j;
      }
    }
  }

  lemma StepHeld(ps: seq<Part>, n: nat, acc: Partial)
    requires n < |ps| && Holds(ps, n, acc) && Wellformed(ps[n])
    ensures Right(ps, n + 1, Stepped(acc, ps[n]))
  {
    if ps[n].Sets? {
      if ps[n].key in acc.saw {
        var i :| 0 <= i < n && ps[i].Sets? && ps[i].key == ps[n].key;
      } else {
        SetHeld(ps, n, acc);
      }
    }
  }

  lemma OneMore(ps: seq<Part>, n: nat, before: Result<Partial>, after: Result<Partial>)
    requires n < |ps| && Right(ps, n, before) && Wellformed(ps[n])
    requires after == if before.Ok? then Stepped(before.value, ps[n]) else Err
    ensures Right(ps, n + 1, after)
  {
    if before.Ok? {
      StepHeld(ps, n, before.value);
    }
  }

  lemma {:induction false} PartsHeld(step: Step, parts: seq<string>, ps: seq<Part>, n: nat)
    requires n <= |parts| == |ps| && forall i | 0 <= i < |ps| :: Obeys(step, parts[i], ps[i])
    ensures Right(ps, n, ReadParts(step, parts, n))
  {
    if n == 0 {
      NoneHeld(ps);
    } else {
      PartsHeld(step, parts, ps, n - 1);
      OneMore(ps, n - 1, ReadParts(step, parts, n - 1), ReadParts(step, parts, n));
    }
  }

  lemma HeldOnce(ps: seq<Part>, a: Partial, b: Partial)
    requires Holds(ps, |ps|, a) && Holds(ps, |ps|, b)
    ensures a == b
  {
    SawOnce(ps, a, b);
    SawOnce(ps, b, a);
    assert a.saw == b.saw;
    forall k: nat | k < COUNT
      ensures Field(a, k) == Field(b, k)
    {
      if k in a.saw {
        var i :| 0 <= i < |ps| && ps[i].Sets? && ps[i].key == k;
      }
    }
    assert Field(a, 0) == Field(b, 0) && Field(a, 7) == Field(b, 7) && Field(a, 8) == Field(b, 8);
    forall i | 0 <= i < LIMITS
      ensures a.restrictions.limits[i] == b.restrictions.limits[i]
    {
      assert Field(a, i + 1) == Field(b, i + 1);
    }
    assert a.restrictions.limits == b.restrictions.limits;
  }

  lemma SawOnce(ps: seq<Part>, a: Partial, b: Partial)
    requires Holds(ps, |ps|, a) && Holds(ps, |ps|, b)
    ensures a.saw <= b.saw
  {
    forall k | k in a.saw
      ensures k in b.saw
    {
      var i :| 0 <= i < |ps| && ps[i].Sets? && ps[i].key == k;
    }
  }

  lemma HeardIs(part: string)
    ensures Heard(part) == Given(part)
  {
    if Heard(part).Sets? {
      HeardIff(part, Heard(part).key, Heard(part).value);
    }
    if k: nat, v :| Gives(part, k, v) {
      HeardIff(part, k, v);
    }
    if Given(part).Sets? {
      HeardIff(part, Given(part).key, Given(part).value);
    }
  }

  lemma PartStep(acc: Partial, part: string)
    requires Fresh(acc)
    ensures Wellformed(Given(part)) && ReadPart(acc, part) == Stepped(acc, Given(part))
  {
    HeardIs(part);
    PartHeard(acc, part);
  }

  lemma StepsIff(step: Step, parts: seq<string>, ps: seq<Part>, acc: Partial)
    requires |ps| == |parts| && forall i | 0 <= i < |ps| :: Obeys(step, parts[i], ps[i])
    ensures ReadParts(step, parts, |parts|) == Ok(acc) <==> Holds(ps, |ps|, acc)
  {
    PartsHeld(step, parts, ps, |parts|);
    HeldIff(ps, ReadParts(step, parts, |parts|), acc);
  }

  lemma PartObeys(part: string)
    ensures Obeys(ReadPart, part, Given(part))
  {
    PartStep(NO_PARAMS, part);
    forall acc: Partial | Fresh(acc)
      ensures ReadPart(acc, part) == Stepped(acc, Given(part))
    {
      PartStep(acc, part);
    }
  }

  /** The parts are read one by one exactly as they are spelled. */
  lemma PartsIff(parts: seq<string>, acc: Partial)
    ensures ReadParts(ReadPart, parts, |parts|) == Ok(acc) <==> Spells(parts, acc)
  {
    var ps := AllGiven(parts);
    forall i | 0 <= i < |parts|
      ensures Obeys(ReadPart, parts[i], ps[i])
    {
      PartObeys(parts[i]);
    }
    StepsIff(ReadPart, parts, ps, acc);
  }

  lemma HeldIff(ps: seq<Part>, res: Result<Partial>, acc: Partial)
    requires Right(ps, |ps|, res)
    ensures res == Ok(acc) <==> Holds(ps, |ps|, acc)
  {
    if res.Ok? && Holds(ps, |ps|, acc) {
      HeldOnce(ps, res.value, acc);
    }
  }

  // ----- the attribute ----------------------------------------------------------------------

  lemma NothingSpelled(acc: Partial)
    ensures Spells(Split("", ';'), acc) <==> acc == NO_PARAMS
  {
    var parts := Split("", ';');
    assert parts == [""];
    var ps := AllGiven(parts);
    if acc == NO_PARAMS {
      assert Holds(ps, 1, acc);
    }
    if Holds(ps, 1, acc) {
      assert Holds(ps, 1, NO_PARAMS);
      HeldOnce(ps, acc, NO_PARAMS);
    }
  }

  lemma TextIff(text: string, none: bool, acc: Partial)
    requires none ==> text == ""
    ensures (if none then Ok(NO_PARAMS) else ParamsOf(text)) == Ok(acc) <==>
              Spells(Split(text, ';'), acc) && ValidRestrictions(acc.restrictions)
  {
    if none {
      NothingSpelled(acc);
    } else {
      PartsIff(Split(text, ';'), acc);
    }
  }

  lemma WordsIff(ws: seq<string>, r: Rid)
    requires |ws| >= 2
    ensures FromFields(ws) == Ok(r) <==>
              && ValidRid(r) && r.id == ws[0] && r.direction == Canonical(ws[1])
              && exists saw: set<nat> :: Spells(Split(Join(ws[2..], ' '), ';'), Params(r.restrictions, r.payloadTypes, saw))
  {
    var text := Join(ws[2..], ' ');
    var params := if |ws| > 2 then ParamsOf(text) else Ok(NO_PARAMS);
    if |r.restrictions.limits| == LIMITS {
      forall saw: set<nat>
        ensures Spells(Split(text, ';'), Params(r.restrictions, r.payloadTypes, saw)) && ValidRestrictions(r.restrictions) <==>
                  params == Ok(Params(r.restrictions, r.payloadTypes, saw))
      {
        TextIff(text, |ws| == 2, Params(r.restrictions, r.payloadTypes, saw));
      }
    }
  }

  /** The text after the attribute's name: words, of which the first is the identifier and the second the direction;
      the rest are parameters with semicolons between them, that spell the restrictions and payload types. */
  ghost predicate SpellsRid(body: string, r: Rid) {
    var ws := Fields(body);
    && |ws| >= 2 && ValidRid(r) && r.id == ws[0] && r.direction == Canonical(ws[1])
    && exists saw: set<nat> :: Spells(Split(Join(ws[2..], ' '), ';'), Params(r.restrictions, r.payloadTypes, saw))
  }

  /** An attribute is read as r exactly if its text spells r. */
  lemma RidIff(body: string, r: Rid)
    ensures RidOf("a=rid:" + body) == Ok(r) <==> SpellsRid(body, r)
  {
    AttributeFields("a=rid:", body);
    var ws := Fields(body);
    if |ws| >= 2 {
      WordsIff(ws, r);
    }
  }
}
