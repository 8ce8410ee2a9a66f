/**
 Restriction identifiers: the a=rid attribute of RFC 8851 section 10.
 */
module SdpRid {
  import opened Values
  import opened Numbers
  import opened Text
  import opened SdpBitsPerPixel

  // ----- values -----------------------------------------------------------------------------

  /** The parameters, in the order in which they are printed. The six after "pt" are integer limits. */
  const KEYS: seq<string> :=
    ["pt", "max-width", "max-height", "max-fps", "max-fs", "max-br", "max-pps", "max-bpp", "depend"]

  const PT: nat := 0
  const BPP: nat := 7
  const DEPEND: nat := 8
  const LIMITS: nat := 6

  /** limits holds max-width, max-height, max-fps, max-fs, max-br and max-pps; zero stands for none. */
  datatype Restrictions = Restrictions(limits: seq<Int>, bitsPerPixel: Int, dependsOn: seq<string>)

  datatype Rid = Rid(id: string, direction: string, payloadTypes: seq<string>, restrictions: Restrictions)

  const UNRESTRICTED: Restrictions := Restrictions([0, 0, 0, 0, 0, 0], 0, [])

  predicate IdChar(c: char) {
    IsDigit(c) || 'A' <= c <= 'Z' || 'a' <= c <= 'z' || c == '-' || c == '_'
  }

  /** Digits, letters, hyphen and underscore. */
  lemma IdCharIff(c: char)
    ensures IdChar(c) <==> var n := c as int; 48 <= n <= 57 || 65 <= n <= 90 || 97 <= n <= 122 || n == 45 || n == 95
  {
  }

  predicate ValidId(s: string) {
    s != "" && forall i | 0 <= i < |s| :: IdChar(s[i])
  }

  predicate AllValidIds(ids: seq<string>) {
    forall i | 0 <= i < |ids| :: ValidId(ids[i])
  }

  predicate ValidRestrictions(r: Restrictions) {
    && |r.limits| == LIMITS && (forall i | 0 <= i < LIMITS :: r.limits[i] >= 0)
    && 0 <= r.bitsPerPixel <= MAX_BPP
    && AllValidIds(r.dependsOn)
  }

  function Canonical(direction: string): string {
    ToLower(Trim(direction))
  }

  predicate ValidPayloadType(p: string) {
    Trim(p) != "" && ',' !in p
  }

  predicate ValidRid(r: Rid) {
    && ValidId(r.id)
    && (Canonical(r.direction) == "send" || Canonical(r.direction) == "recv")
    && (forall i | 0 <= i < |r.payloadTypes| :: ValidPayloadType(r.payloadTypes[i]))
    && ValidRestrictions(r.restrictions)
  }

  // ----- printing ---------------------------------------------------------------------------

  function Trims(ss: seq<string>): (r: seq<string>)
    ensures |r| == |ss| && forall i | 0 <= i < |ss| :: r[i] == Trim(ss[i])
  {
    seq(|ss|, i requires 0 <= i < |ss| => Trim(ss[i]))
  }

  predicate Present(r: Rid, k: nat)
    requires ValidRid(r) && k < |KEYS|
  {
    if k == PT then r.payloadTypes != []
    else if k == BPP then r.restrictions.bitsPerPixel > 0
    else if k == DEPEND then r.restrictions.dependsOn != []
    else r.restrictions.limits[k - 1] > 0
  }

  function ValueOf(r: Rid, k: nat): string
    requires ValidRid(r) && k < |KEYS| && Present(r, k)
  {
    if k == PT then Join(Trims(r.payloadTypes), ',')
    else if k == BPP then Formatted(r.restrictions.bitsPerPixel)
    else if k == DEPEND then Join(r.restrictions.dependsOn, ',')
    else Itoa(r.restrictions.limits[k - 1])
  }

  function PartOf(r: Rid, k: nat): string
    requires ValidRid(r) && k < |KEYS| && Present(r, k)
  {
    KEYS[k] + ['='] + ValueOf(r, k)
  }

  /** The first k parameters, those that are present. */
  function PartsUpTo(r: Rid, k: nat): seq<string>
    requires ValidRid(r) && k <= |KEYS|
  {
    if k == 0 then [] else PartsUpTo(r, k - 1) + if Present(r, k - 1) then [PartOf(r, k - 1)] else []
  }

  function PartsOf(r: Rid): seq<string>
    requires ValidRid(r)
  {
    PartsUpTo(r, |KEYS|)
  }

  function Line(id: string, direction: string, parts: seq<string>): string {
    "a=rid:" + id + " " + direction + if parts == [] then "" else " " + Join(parts, ';')
  }

  function Printed(r: Rid): string
    requires ValidRid(r)
  {
    Line(r.id, Canonical(r.direction), PartsOf(r))
  }

  /** The line with one more parameter. */
  lemma LineGrows(id: string, dir: string, parts: seq<string>, part: string)
    ensures Line(id, dir, parts + [part]) == Line(id, dir, parts) + (if parts == [] then " " else ";") + part
  {
    if parts != [] {
      JoinSnoc(parts, part, ';');
    }
  }

  lemma LineLength(id: string, dir: string, parts: seq<string>)
    ensures |Line(id, dir, parts)| >= |Line(id, dir, [])|
    ensures |Line(id, dir, parts)| == |Line(id, dir, [])| <==> parts == []
  {
  }

  /** Appends one list, separated by commas. */
  method AppendList(dst: string, items: seq<string>) returns (out: string)
    ensures out == dst + Join(items, ',')
  {
    out := dst;
    for i := 0 to |items|
      invariant out == dst + Join(items[..i], ',')
    {
      if i > 0 {
        out := out + ",";
        JoinSnoc(items[..i], items[i], ',');
      }
      assert items[..i + 1] == items[..i] + [items[i]];
      out := out + items[i];
    }
    assert items[..|items|] == items;
  }

  method PrintValue(r: Rid, k: nat) returns (v: string)
    requires ValidRid(r) && k < |KEYS| && Present(r, k)
    ensures v == ValueOf(r, k)
  {
    if k == PT {
      v := AppendList("", Trims(r.payloadTypes));
    } else if k == DEPEND {
      v := AppendList("", r.restrictions.dependsOn);
    } else if k == BPP {
      v := Format(r.restrictions.bitsPerPixel);
    } else {
      v := Itoa(r.restrictions.limits[k - 1]);
    }
  }

  /** Appends the attribute; the first parameter follows a blank, the others a semicolon. */
  method Append(dst: string, r: Rid) returns (out: Result<string>)
    ensures out == if ValidRid(r) then Ok(dst + Printed(r)) else Err
  {
    if !ValidRid(r) {
      return Err;
    }
    var dir := Canonical(r.direction);
    var s := "a=rid:" + r.id + " " + dir;
    var start := |s|;
    assert s == Line(r.id, dir, []);
    for k := 0 to |KEYS|
      invariant s == Line(r.id, dir, PartsUpTo(r, k)) && start == |Line(r.id, dir, [])|
    {
      ghost var parts := PartsUpTo(r, k);
      if Present(r, k) {
        LineLength(r.id, dir, parts);
        LineGrows(r.id, dir, parts, PartOf(r, k));
        var v := PrintValue(r, k);
        s := s + (if |s| == start then " " else ";") + (KEYS[k] + ['='] + v);
      } else {
        assert parts + [] == parts;
      }
    }
    return Ok(dst + s);
  }

  // ----- reading ----------------------------------------------------------------------------

  /** What has been read so far; saw holds the parameters met. */
  datatype Params = Params(restrictions: Restrictions, payloadTypes: seq<string>, saw: set<nat>)

  const NO_PARAMS: Params := Params(UNRESTRICTED, [], {})

  /** With a place for every limit. */
  type Partial = p: Params | |p.restrictions.limits| == LIMITS witness NO_PARAMS

  function KeyIndex(key: string): Option<nat> {
    if key == KEYS[0] then Some(0)
    else if key == KEYS[1] then Some(1)
    else if key == KEYS[2] then Some(2)
    else if key == KEYS[3] then Some(3)
    else if key == KEYS[4] then Some(4)
    else if key == KEYS[5] then Some(5)
    else if key == KEYS[6] then Some(6)
    else if key == KEYS[7] then Some(7)
    else if key == KEYS[8] then Some(8)
    else None
  }

  /** Reads the value of parameter k. A limit may be named without a value; the lists may not. */
  function ReadValue(acc: Partial, k: nat, found: bool, value: string): Result<Partial>
    requires k < |KEYS|
  {
    var r := acc.restrictions;
    if k == PT then
      var ps := Trims(Split(value, ','));
      if !found || value == "" || "" in ps then Err
      else Ok(acc.(payloadTypes := acc.payloadTypes + ps))
    else if k == DEPEND then
      var ids := Trims(Split(value, ','));
      if !found || value == "" || !AllValidIds(ids) then Err
      else Ok(acc.(restrictions := r.(dependsOn := r.dependsOn + ids)))
    else if !found then Ok(acc)
    else if k == BPP then
      var v := Parsed(value);
      if v.None? then Err else Ok(acc.(restrictions := r.(bitsPerPixel := v.value)))
    else
      var v := Atoi(value);
      if v.None? || v.value <= 0 then Err
      else Ok(acc.(restrictions := r.(limits := r.limits[k - 1 := v.value])))
  }

  /** Reads one parameter. Unknown and repeated parameters are errors, empty ones are skipped. */
  function ReadPart(acc: Partial, part: string): Result<Partial> {
    var p := Trim(part);
    if p == "" then Ok(acc)
    else
      var (key, value, found) := Cut(p, '=');
      var k := KeyIndex(ToLower(Trim(key)));
      if k.None? || k.value in acc.saw then Err
      else ReadValue(acc.(saw := acc.saw + {k.value}), k.value, found, Trim(value))
  }

  type Step = (Partial, string) -> Result<Partial>

  /** The first k parts, one after the other; an error is an error of the whole. */
  function ReadParts(step: Step, parts: seq<string>, k: nat): Result<Partial>
    requires k <= |parts|
  {
    if k == 0 then Ok(NO_PARAMS)
    else
      var before := ReadParts(step, parts, k - 1);
      if before.Err? then Err else step(before.value, parts[k - 1])
  }

  lemma {:induction false} ReadPartsFails(step: Step, parts: seq<string>, k: nat, m: nat)
    requires k <= m <= |parts| && ReadParts(step, parts, k).Err?
    ensures ReadParts(step, parts, m).Err?
  {
    if k < m {
      ReadPartsFails(step, parts, k, m - 1);
    }
  }

  /** The loop over the parameters. */
  method ReadEachPart(step: Step, parts: seq<string>) returns (res: Result<Partial>)
    ensures res == ReadParts(step, parts, |parts|)
  {
    var acc: Partial := NO_PARAMS;
    for i := 0 to |parts|
      invariant ReadParts(step, parts, i) == Ok(acc)
    {
      var next := step(acc, parts[i]);
      if next.Err? {
        ReadPartsFails(step, parts, i + 1, |parts|);
        return Err;
      }
      acc := next.value;
    }
    return Ok(acc);
  }

  function ParamsOf(text: string): Result<Partial> {
    var parts := Split(text, ';');
    var res := ReadParts(ReadPart, parts, |parts|);
    if res.Ok? && !ValidRestrictions(res.value.restrictions) then Err else res
  }

  method ParseParams(text: string) returns (res: Result<Partial>)
    ensures res == ParamsOf(text)
  {
    res := ReadEachPart(ReadPart, Split(text, ';'));
    if res.Ok? && !ValidRestrictions(res.value.restrictions) {
      return Err;
    }
  }

  /** Without the attribute's name, in either case, if it is there. */
  function AfterPrefix(line: string, prefix: string): string {
    if |line| >= |prefix| && ToLower(line[..|prefix|]) == ToLower(prefix) then Trim(line[|prefix|..]) else line
  }

  function RidOf(line: string): Result<Rid> {
    FromFields(Fields(AfterPrefix(Trim(line), "a=rid:")))
  }

  function FromFields(fields: seq<string>): Result<Rid> {
    if |fields| < 2 then Err
    else
      var params := if |fields| > 2 then ParamsOf(Join(fields[2..], ' ')) else Ok(NO_PARAMS);
      if params.Err? then Err
      else
        var r := Rid(fields[0], Canonical(fields[1]), params.value.payloadTypes, params.value.restrictions);
        if ValidRid(r) then Ok(r) else Err
  }

  // ----- round trip: one parameter ----------------------------------------------------------

  /** What can be printed and read again: no semicolon, and no spaces but single blanks inside. */
  predicate Printable(p: string) {
    Tidy(Trim(p)) && ';' !in Trim(p)
  }

  predicate PrintableRid(r: Rid) {
    forall i | 0 <= i < |r.payloadTypes| :: Printable(r.payloadTypes[i])
  }

  lemma TidyConcat(a: string, c: char, b: string)
    requires Tidy(a) && Tidy(b) && a != "" && b != "" && !IsSpace(c)
    ensures Tidy(a + [c] + b)
  {
    var s := a + [c] + b;
    assert s[0] == a[0] && s[|s| - 1] == b[|b| - 1] && s[|a|] == c;
    assert forall i | 0 <= i < |a| :: s[i] == a[i];
    assert forall i | |a| < i < |s| :: s[i] == b[i - |a| - 1];
  }

  lemma {:induction false} TidyJoin(parts: seq<string>, c: char)
    requires parts != [] && !IsSpace(c)
    requires forall i | 0 <= i < |parts| :: Tidy(parts[i]) && parts[i] != ""
    ensures Tidy(Join(parts, c)) && Join(parts, c) != ""
  {
    if |parts| > 1 {
      TidyJoin(parts[1..], c);
      TidyConcat(parts[0], c, Join(parts[1..], c));
    }
  }

  lemma WordIsTidy(w: string)
    requires NoSpace(w)
    ensures Tidy(w)
  {
  }

  lemma IdText(id: string)
    requires ValidId(id)
    ensures NoSpace(id) && ',' !in id && ';' !in id && '=' !in id
  {
    assert forall i | 0 <= i < |id| :: IdChar(id[i]);
  }

  lemma DigitsText(s: string)
    requires AllDigits(s)
    ensures NoSpace(s) && ';' !in s
  {
    assert forall i | 0 <= i < |s| :: IsDigit(s[i]);
  }

  lemma TrimmedInside(p: string)
    ensures Trimmed(Trim(p)) && (',' !in p ==> ',' !in Trim(p))
  {
    var a, b := TrimPart(p);
    if ',' in Trim(p) {
      var i :| 0 <= i < |Trim(p)| && Trim(p)[i] == ',';
      assert p[a + i] == ',';
    }
  }

  /** A list printed with commas and read again. */
  lemma ListReads(ps: seq<string>)
    requires ps != [] && NoneContains(ps, ',')
    requires forall i | 0 <= i < |ps| :: Trimmed(ps[i])
    ensures Trims(Split(Join(ps, ','), ',')) == ps
  {
    SplitJoin(ps, ',');
    forall i | 0 <= i < |ps|
      ensures Trim(ps[i]) == ps[i]
    {
      TrimId(ps[i]);
    }
  }

  lemma PayloadTypesText(r: Rid)
    requires ValidRid(r) && PrintableRid(r) && r.payloadTypes != []
    ensures var ps := Trims(r.payloadTypes);
            var v := Join(ps, ',');
            && Tidy(v) && v != "" && ';' !in v && Trims(Split(v, ',')) == ps && "" !in ps
  {
    var ps := Trims(r.payloadTypes);
    forall i | 0 <= i < |ps|
      ensures Trimmed(ps[i]) && ',' !in ps[i] && ps[i] != "" && Tidy(ps[i]) && ';' !in ps[i]
    {
      assert ValidPayloadType(r.payloadTypes[i]) && Printable(r.payloadTypes[i]);
      TrimmedInside(r.payloadTypes[i]);
    }
    ListReads(ps);
    TidyJoin(ps, ',');
    JoinContains(ps, ',', ';');
  }

  lemma DependText(ids: seq<string>)
    requires ids != [] && AllValidIds(ids)
    ensures var v := Join(ids, ',');
            Tidy(v) && v != "" && ';' !in v && Trims(Split(v, ',')) == ids
  {
    forall i | 0 <= i < |ids|
      ensures NoSpace(ids[i]) && ids[i] != "" && ',' !in ids[i] && ';' !in ids[i] && Tidy(ids[i])
    {
      IdText(ids[i]);
      WordIsTidy(ids[i]);
    }
    ListReads(ids);
    TidyJoin(ids, ',');
    JoinContains(ids, ',', ';');
  }

  lemma ValueText(r: Rid, k: nat)
    requires ValidRid(r) && PrintableRid(r) && k < |KEYS| && Present(r, k)
    ensures Tidy(ValueOf(r, k)) && ValueOf(r, k) != "" && ';' !in ValueOf(r, k)
  {
    if k == PT {
      PayloadTypesText(r);
    } else if k == BPP {
      FormattedText(r.restrictions.bitsPerPixel);
      WordIsTidy(ValueOf(r, k));
    } else if k == DEPEND {
      DependText(r.restrictions.dependsOn);
    } else {
      DigitsText(Itoa(r.restrictions.limits[k - 1]));
      WordIsTidy(ValueOf(r, k));
    }
  }

  lemma KeyText(k: nat)
    requires k < |KEYS|
    ensures KEYS[k] != "" && NoSpace(KEYS[k]) && '=' !in KEYS[k] && ';' !in KEYS[k]
    ensures ToLower(KEYS[k]) == KEYS[k] && KeyIndex(KEYS[k]) == Some(k)
  {
  }

  lemma PartText(r: Rid, k: nat)
    requires ValidRid(r) && PrintableRid(r) && k < |KEYS| && Present(r, k)
    ensures Tidy(PartOf(r, k)) && PartOf(r, k) != "" && ';' !in PartOf(r, k)
  {
    ValueText(r, k);
    KeyText(k);
    WordIsTidy(KEYS[k]);
    TidyConcat(KEYS[k], '=', ValueOf(r, k));
  }

  /** What has been read of r after its first k parameters. */
  function ReadSoFar(r: Rid, k: nat): Partial
    requires ValidRid(r) && k <= |KEYS|
  {
    Params(
      Restrictions(
        seq(LIMITS, i requires 0 <= i < LIMITS => if i + 1 < k then r.restrictions.limits[i] else 0),
        if BPP < k then r.restrictions.bitsPerPixel else 0,
        if DEPEND < k then r.restrictions.dependsOn else []),
      if PT < k then Trims(r.payloadTypes) else [],
      set j: nat | j < k && Present(r, j))
  }

  /** A part is read so; sealed, for the proofs about lists of parts. */
  ghost predicate Reads(acc: Partial, part: string, next: Partial) {
    forall k: int {:trigger Unsealed(k)} :: Unsealed(k) ==> ReadPart(acc, part) == Ok(next)
  }

  /** A printed parameter is read by its key and value. */
  lemma KeyedPartReads(acc: Partial, k: nat, v: string)
    requires k < |KEYS| && Tidy(v) && v != ""
    ensures ReadPart(acc, KEYS[k] + ['='] + v) ==
              if k in acc.saw then Err else ReadValue(acc.(saw := acc.saw + {k}), k, true, v)
  {
    var p := KEYS[k] + ['='] + v;
    KeyText(k);
    assert p[0] == KEYS[k][0] && p[|p| - 1] == v[|v| - 1];
    TrimId(p);
    CutAt(KEYS[k], '=', v);
    TrimId(KEYS[k]);
    TrimId(v);
  }

  /** A limit is read by its name. */
  lemma NamedLimit(acc: Partial, name: string, k: nat, n: Int)
    requires (k == 1 && name == "max-width") || (k == 2 && name == "max-height") || (k == 3 && name == "max-fps")
             || (k == 4 && name == "max-fs") || (k == 5 && name == "max-br") || (k == 6 && name == "max-pps")
    requires n > 0 && k !in acc.saw
    ensures ReadPart(acc, name + ['='] + Itoa(n)) ==
              Ok(Params(acc.restrictions.(limits := acc.restrictions.limits[k - 1 := n]), acc.payloadTypes, acc.saw + {k}))
  {
    DigitsText(Itoa(n));
    assert KEYS[k] == name;
    KeyedPartReads(acc, k, Itoa(n));
    AtoiItoa(n);
  }

  lemma KeyedBpp(acc: Partial, v: string, n: Int)
    requires Tidy(v) && v != "" && Parsed(v) == Some(n) && acc.saw == {}
    ensures ReadPart(acc, "max-bpp" + ['='] + v) == Ok(Params(acc.restrictions.(bitsPerPixel := n), acc.payloadTypes, {7}))
  {
    assert KEYS[7] == "max-bpp" && acc.saw + {7} == {7};
    KeyedPartReads(acc, 7, v);
  }

  /** So are bits per pixel. */
  lemma NamedBpp(acc: Partial, n: Int, v: string)
    requires 1 <= n <= MAX_BPP && acc.saw == {} && v == Formatted(n)
    ensures ReadPart(acc, "max-bpp" + ['='] + v) == Ok(Params(acc.restrictions.(bitsPerPixel := n), acc.payloadTypes, {7}))
  {
    FormattedText(n);
    ParseFormat(n);
    NoSpaceTidy(v);
    KeyedBpp(acc, v, n);
  }

  lemma NoSpaceTidy(s: string)
    requires NoSpace(s)
    ensures Tidy(s)
  {
  }

  /** And the lists of payload types and of other restrictions. */
  lemma NamedTypes(acc: Partial, types: string)
    requires Tidy(types) && types != "" && acc.saw == {} && "" !in Trims(Split(types, ','))
    ensures ReadPart(acc, "pt" + ['='] + types) ==
              Ok(Params(acc.restrictions, acc.payloadTypes + Trims(Split(types, ',')), {0}))
  {
    assert KEYS[0] == "pt" && acc.saw + {0} == {0};
    KeyedPartReads(acc, 0, types);
  }

  lemma NamedDepends(acc: Partial, ids: string)
    requires Tidy(ids) && ids != "" && acc.saw == {} && AllValidIds(Trims(Split(ids, ',')))
    ensures ReadPart(acc, "depend" + ['='] + ids) ==
              Ok(Params(acc.restrictions.(dependsOn := acc.restrictions.dependsOn + Trims(Split(ids, ','))), acc.payloadTypes, {8}))
  {
    assert KEYS[8] == "depend" && acc.saw + {8} == {8};
    KeyedPartReads(acc, 8, ids);
  }

  lemma SawGrows(r: Rid, k: nat)
    requires ValidRid(r) && k < |KEYS| && Present(r, k)
    ensures k !in ReadSoFar(r, k).saw && ReadSoFar(r, k).saw + {k} == ReadSoFar(r, k + 1).saw
  {
  }

  lemma PartReads(r: Rid, k: nat)
    requires ValidRid(r) && PrintableRid(r) && k < |KEYS| && Present(r, k)
    ensures Reads(ReadSoFar(r, k), PartOf(r, k), ReadSoFar(r, k + 1))
  {
    ValueText(r, k);
    KeyedPartReads(ReadSoFar(r, k), k, ValueOf(r, k));
    SawGrows(r, k);
    ValueReads(r, k);
  }

  lemma ValueReads(r: Rid, k: nat)
    requires ValidRid(r) && PrintableRid(r) && k < |KEYS| && Present(r, k)
    ensures ReadValue(ReadSoFar(r, k).(saw := ReadSoFar(r, k + 1).saw), k, true, ValueOf(r, k)) == Ok(ReadSoFar(r, k + 1))
  {
    if k == PT || k == DEPEND {
      ListValueReads(r, k);
    } else {
      NumberReads(r, k);
    }
  }

  lemma ListValueReads(r: Rid, k: nat)
    requires ValidRid(r) && PrintableRid(r) && (k == PT || k == DEPEND) && Present(r, k)
    ensures ReadValue(ReadSoFar(r, k).(saw := ReadSoFar(r, k + 1).saw), k, true, ValueOf(r, k)) == Ok(ReadSoFar(r, k + 1))
  {
    SameLimits(r, k);
    if k == PT {
      PayloadTypesText(r);
      assert [] + Trims(r.payloadTypes) == Trims(r.payloadTypes);
    } else {
      DependText(r.restrictions.dependsOn);
      assert [] + r.restrictions.dependsOn == r.restrictions.dependsOn;
    }
  }

  lemma SameLimits(r: Rid, k: nat)
    requires ValidRid(r) && k < |KEYS| && (k == 0 || k > LIMITS)
    ensures ReadSoFar(r, k).restrictions.limits == ReadSoFar(r, k + 1).restrictions.limits
  {
  }

  lemma NumberReads(r: Rid, k: nat)
    requires ValidRid(r) && 1 <= k <= BPP && Present(r, k)
    ensures ReadValue(ReadSoFar(r, k).(saw := ReadSoFar(r, k + 1).saw), k, true, ValueOf(r, k)) == Ok(ReadSoFar(r, k + 1))
  {
    if k == BPP {
      ParseFormat(r.restrictions.bitsPerPixel);
      SameLimits(r, k);
    } else {
      AtoiItoa(r.restrictions.limits[k - 1]);
      assert ReadSoFar(r, k).restrictions.limits[k - 1 := r.restrictions.limits[k - 1]]
          == ReadSoFar(r, k + 1).restrictions.limits;
    }
  }

  lemma AbsentReads(r: Rid, k: nat)
    requires ValidRid(r) && k < |KEYS| && !Present(r, k)
    ensures ReadSoFar(r, k) == ReadSoFar(r, k + 1)
  {
    assert ReadSoFar(r, k).saw == ReadSoFar(r, k + 1).saw;
    assert ReadSoFar(r, k).restrictions.limits == ReadSoFar(r, k + 1).restrictions.limits;
  }

  // ----- round trip: the whole attribute ----------------------------------------------------

  lemma {:induction false} ReadPrefix(step: Step, parts: seq<string>, more: seq<string>, k: nat)
    requires k <= |parts|
    ensures ReadParts(step, parts + more, k) == ReadParts(step, parts, k)
  {
    if k > 0 {
      ReadPrefix(step, parts, more, k - 1);
    }
  }

  lemma ReadGrows(step: Step, parts: seq<string>, part: string, acc: Partial, next: Partial)
    requires ReadParts(step, parts, |parts|) == Ok(acc) && step(acc, part) == Ok(next)
    ensures ReadParts(step, parts + [part], |parts| + 1) == Ok(next)
  {
    ReadPrefix(step, parts, [part], |parts|);
  }

  /** One list of parts extends another by at most one part, which is read accordingly. */
  ghost predicate Follows(step: Step, before: seq<string>, after: seq<string>, acc: Partial, next: Partial) {
    (after == before && next == acc) || exists part :: after == before + [part] && step(acc, part) == Ok(next)
  }

  lemma FollowsReads(step: Step, before: seq<string>, after: seq<string>, acc: Partial, next: Partial)
    requires Follows(step, before, after, acc, next) && ReadParts(step, before, |before|) == Ok(acc)
    ensures ReadParts(step, after, |after|) == Ok(next)
  {
    if !(after == before && next == acc) {
      var part :| after == before + [part] && step(acc, part) == Ok(next);
      ReadGrows(step, before, part, acc, next);
    }
  }

  lemma {:induction false} ChainReads(step: Step, lists: seq<seq<string>>, accs: seq<Partial>, k: nat)
    requires k < |lists| == |accs| && lists[0] == [] && accs[0] == NO_PARAMS
    requires forall i, j | 0 <= i < |lists| && 0 <= j < |lists| && j == i + 1 ::
               Follows(step, lists[i], lists[j], accs[i], accs[j])
    ensures ReadParts(step, lists[k], |lists[k]|) == Ok(accs[k])
  {
    if k > 0 {
      ChainReads(step, lists, accs, k - 1);
      FollowsReads(step, lists[k - 1], lists[k], accs[k - 1], accs[k]);
    }
  }

  lemma PartFollows(r: Rid, k: nat)
    requires ValidRid(r) && PrintableRid(r) && k < |KEYS|
    ensures Follows(ReadPart, PartsUpTo(r, k), PartsUpTo(r, k + 1), ReadSoFar(r, k), ReadSoFar(r, k + 1))
  {
    if Present(r, k) {
      PartReads(r, k);
      assert Unsealed(0);
      assert PartsUpTo(r, k + 1) == PartsUpTo(r, k) + [PartOf(r, k)];
    } else {
      AbsentReads(r, k);
      assert PartsUpTo(r, k + 1) == PartsUpTo(r, k) + [] == PartsUpTo(r, k);
    }
  }

  /** The parts that were printed are read one by one. */
  lemma PartsRead(r: Rid)
    requires ValidRid(r) && PrintableRid(r)
    ensures ReadParts(ReadPart, PartsOf(r), |PartsOf(r)|) == Ok(ReadSoFar(r, |KEYS|))
  {
    var lists := seq(|KEYS| + 1, k requires 0 <= k <= |KEYS| => PartsUpTo(r, k));
    var accs: seq<Partial> := seq(|KEYS| + 1, k requires 0 <= k <= |KEYS| => ReadSoFar(r, k));
    StartsEmpty(r);
    forall i, j | 0 <= i < |lists| && 0 <= j < |lists| && j == i + 1
      ensures Follows(ReadPart, lists[i], lists[j], accs[i], accs[j])
    {
      PartFollows(r, i);
    }
    ChainReads(ReadPart, lists, accs, |KEYS|);
  }

  lemma {:induction false} PartsText(r: Rid, k: nat)
    requires ValidRid(r) && PrintableRid(r) && k <= |KEYS|
    ensures forall i | 0 <= i < |PartsUpTo(r, k)| ::
              Tidy(PartsUpTo(r, k)[i]) && PartsUpTo(r, k)[i] != "" && ';' !in PartsUpTo(r, k)[i]
  {
    if k > 0 {
      PartsText(r, k - 1);
      if Present(r, k - 1) {
        PartText(r, k - 1);
      }
    }
  }

  /** The value that is read back: direction in lower case, spaces trimmed. */
  function Normalized(r: Rid): Rid {
    Rid(r.id, Canonical(r.direction), Trims(r.payloadTypes), r.restrictions)
  }

  /** The fields of an attribute are those of the text after its name. */
  lemma AttributeFields(prefix: string, body: string)
    requires prefix != "" && Trimmed(prefix)
    ensures Fields(AfterPrefix(Trim(prefix + body), prefix)) == Fields(body)
  {
    var line := prefix + body;
    assert line[0] == prefix[0];
    TrimRightKeeps(prefix, body);
    var t := prefix + TrimRight(body);
    assert Trim(line) == t;
    assert t[..|prefix|] == prefix && t[|prefix|..] == TrimRight(body);
    FieldsTrim(TrimRight(body));
    FieldsTrimRight(body);
  }

  lemma LineFields(id: string, dir: string, parts: seq<string>)
    requires id != "" && NoSpace(id) && dir != "" && NoSpace(dir)
    ensures Fields(AfterPrefix(Trim(Line(id, dir, parts)), "a=rid:")) ==
              [id, dir] + if parts == [] then [] else Fields(Join(parts, ';'))
  {
    var text := Join(parts, ';');
    HeadFields(id, dir, text);
    var body := if parts == [] then id + " " + dir else id + " " + dir + " " + text;
    assert Line(id, dir, parts) == "a=rid:" + body;
    AttributeFields("a=rid:", body);
  }

  lemma HeadFields(id: string, dir: string, text: string)
    requires id != "" && NoSpace(id) && dir != "" && NoSpace(dir)
    ensures Fields(id + " " + dir) == [id, dir]
    ensures Fields(id + " " + dir + " " + text) == [id, dir] + Fields(text)
  {
    FieldsOne(id);
    FieldsOne(dir);
    FieldsConcat(id, ' ', dir);
    FieldsConcat(id + " " + dir, ' ', text);
  }

  lemma PrintedParams(r: Rid)
    requires ValidRid(r) && PrintableRid(r) && PartsOf(r) != []
    ensures var text := Join(PartsOf(r), ';');
            && Fields(text) != [] && Join(Fields(text), ' ') == text
            && ParamsOf(text) == Ok(ReadSoFar(r, |KEYS|))
  {
    var parts := PartsOf(r);
    var text := Join(parts, ';');
    PartsText(r, |KEYS|);
    TidyJoin(parts, ';');
    TidyIff(text);
    SplitJoin(parts, ';');
    PartsRead(r);
    EndsComplete(r);
  }

  lemma StartsEmpty(r: Rid)
    requires ValidRid(r)
    ensures ReadSoFar(r, 0) == NO_PARAMS
  {
    assert ReadSoFar(r, 0).saw == {};
    assert ReadSoFar(r, 0).restrictions.limits == UNRESTRICTED.limits;
  }

  lemma EndsComplete(r: Rid)
    requires ValidRid(r)
    ensures ReadSoFar(r, |KEYS|).restrictions == r.restrictions
    ensures ReadSoFar(r, |KEYS|).payloadTypes == Trims(r.payloadTypes)
  {
    assert ReadSoFar(r, |KEYS|).restrictions.limits == r.restrictions.limits;
  }

  lemma NormalizedValid(r: Rid)
    requires ValidRid(r)
    ensures ValidRid(Normalized(r)) && Normalized(Normalized(r)) == Normalized(r)
    ensures PrintableRid(Normalized(r)) <==> PrintableRid(r)
  {
    var t := Normalized(r);
    forall i | 0 <= i < |r.payloadTypes|
      ensures ValidPayloadType(t.payloadTypes[i]) && Trim(t.payloadTypes[i]) == t.payloadTypes[i]
    {
      assert ValidPayloadType(r.payloadTypes[i]);
      TrimmedInside(r.payloadTypes[i]);
      TrimId(t.payloadTypes[i]);
    }
    assert Trims(t.payloadTypes) == t.payloadTypes;
    TrimId(t.direction);
    assert ToLower("send") == "send" && ToLower("recv") == "recv";
  }

  lemma NothingPrinted(r: Rid, k: nat)
    requires ValidRid(r) && k <= |KEYS| && PartsUpTo(r, k) == []
    ensures forall j | 0 <= j < k :: !Present(r, j)
  {
    if k > 0 {
      NothingPrinted(r, k - 1);
    }
  }

  lemma NothingToRead(r: Rid)
    requires ValidRid(r) && PartsOf(r) == []
    ensures r.payloadTypes == [] && r.restrictions == UNRESTRICTED
  {
    NothingPrinted(r, |KEYS|);
    assert forall i | 0 <= i < LIMITS :: r.restrictions.limits[i] == 0 by {
      forall i | 0 <= i < LIMITS
        ensures r.restrictions.limits[i] == 0
      {
        assert !Present(r, i + 1);
      }
    }
    assert !Present(r, PT) && !Present(r, BPP) && !Present(r, DEPEND);
    assert r.restrictions.limits == UNRESTRICTED.limits;
  }

  lemma LineReads(id: string, dir: string, parts: seq<string>, params: Partial)
    requires ValidId(id) && (dir == "send" || dir == "recv")
    requires parts == [] ==> params == NO_PARAMS
    requires parts != [] ==> ReadsAs(Join(parts, ';'), params)
    requires ValidRid(Rid(id, dir, params.payloadTypes, params.restrictions))
    ensures RidOf(Line(id, dir, parts)) == Ok(Rid(id, dir, params.payloadTypes, params.restrictions))
  {
    IdText(id);
    LineFields(id, dir, parts);
    FieldsRead(id, dir, if parts == [] then [] else Fields(Join(parts, ';')), params);
  }

  /** The text survives being cut into words, and is read as params. */
  predicate ReadsAs(text: string, params: Partial) {
    Fields(text) != [] && Join(Fields(text), ' ') == text && ParamsOf(text) == Ok(params)
  }

  lemma FieldsRead(id: string, dir: string, rest: seq<string>, params: Partial)
    requires dir == "send" || dir == "recv"
    requires if rest == [] then params == NO_PARAMS else ParamsOf(Join(rest, ' ')) == Ok(params)
    requires ValidRid(Rid(id, dir, params.payloadTypes, params.restrictions))
    ensures FromFields([id, dir] + rest) == Ok(Rid(id, dir, params.payloadTypes, params.restrictions))
  {
    TrimId(dir);
    assert ToLower("send") == "send" && ToLower("recv") == "recv";
    assert ([id, dir] + rest)[2..] == rest;
  }

  lemma ReadsBack(r: Rid)
    requires ValidRid(r) && PrintableRid(r)
    ensures RidOf(Printed(r)) == Ok(Normalized(r))
  {
    NormalizedValid(r);
    var parts := PartsOf(r);
    if parts == [] {
      NothingToRead(r);
      assert Trims([]) == [];
      LineReads(r.id, Canonical(r.direction), parts, NO_PARAMS);
    } else {
      PrintedParams(r);
      EndsComplete(r);
      LineReads(r.id, Canonical(r.direction), parts, ReadSoFar(r, |KEYS|));
    }
  }

  // ----- what is ever read ------------------------------------------------------------------

  /** A payload type as the reader returns it. */
  predicate ReadType(p: string) {
    Tidy(p) && p != "" && ';' !in p && ',' !in p
  }

  predicate AllReadTypes(ps: seq<string>) {
    forall i | 0 <= i < |ps| :: ReadType(ps[i])
  }

  lemma PieceText(s: string, a: nat, b: nat, c: char)
    requires a <= b <= |s| && c !in s
    ensures c !in s[a..b]
  {
  }

  /** A trimmed piece of a tidy text is tidy and has no character that the text does not have. */
  lemma TrimmedPiece(s: string, a: nat, b: nat)
    requires Tidy(s) && a <= b <= |s| && ';' !in s
    ensures Tidy(Trim(s[a..b])) && ';' !in Trim(s[a..b])
  {
    var t := s[a..b];
    var i, j := TrimPart(t);
    SliceSlice(s, a, b, i, j);
    TidyPiece(s, a + i, a + j);
    PieceText(s, a + i, a + j, ';');
  }

  lemma ListPieces(value: string)
    requires Tidy(value) && ';' !in value
    ensures var ps := Trims(Split(value, ','));
            "" !in ps ==> AllReadTypes(ps)
  {
    var ps := Trims(Split(value, ','));
    forall k | 0 <= k < |ps| && ps[k] != ""
      ensures ReadType(ps[k])
    {
      var a, b := SplitParts(value, ',', k);
      TrimmedPiece(value, a, b);
      TrimmedInside(value[a..b]);
    }
  }

  /** Reading one parameter of a tidy text keeps the types read so far printable. */
  lemma PartPieces(acc: Partial, part: string)
    requires AllReadTypes(acc.payloadTypes)
    requires Tidy(Trim(part)) && ';' !in Trim(part)
    ensures ReadPart(acc, part).Ok? ==> AllReadTypes(ReadPart(acc, part).value.payloadTypes)
  {
    var p := Trim(part);
    var i := Find(p, '=');
    if i < |p| {
      var value := p[i + 1..];
      assert value == p[i + 1..|p|];
      TrimmedPiece(p, i + 1, |p|);
      ListPieces(Trim(value));
    }
  }

  /** What holds of nothing and is kept by every part holds of what the parts give. */
  lemma {:induction false} KeptByAll(step: Step, parts: seq<string>, good: Partial -> bool, k: nat)
    requires k <= |parts| && good(NO_PARAMS)
    requires forall i, acc: Partial | 0 <= i < |parts| && good(acc) && step(acc, parts[i]).Ok? :: good(step(acc, parts[i]).value)
    ensures ReadParts(step, parts, k).Ok? ==> good(ReadParts(step, parts, k).value)
  {
    if k > 0 {
      KeptByAll(step, parts, good, k - 1);
    }
  }

  function PrintableSoFar(): Partial -> bool {
    (acc: Partial) => AllReadTypes(acc.payloadTypes)
  }

  lemma SemicolonPiece(text: string, i: nat)
    requires Tidy(text) && i < |Split(text, ';')|
    ensures var p := Trim(Split(text, ';')[i]);
            Tidy(p) && ';' !in p
  {
    var a, b := SplitParts(text, ';', i);
    var t := text[a..b];
    var k, m := TrimPart(t);
    SliceSlice(text, a, b, k, m);
    TidyPiece(text, a + k, a + m);
    PieceText(t, k, m, ';');
  }

  lemma TextPieces(text: string)
    requires Tidy(text)
    ensures ParamsOf(text).Ok? ==> AllReadTypes(ParamsOf(text).value.payloadTypes)
  {
    var parts, good := Split(text, ';'), PrintableSoFar();
    forall i, acc: Partial | 0 <= i < |parts| && good(acc) && ReadPart(acc, parts[i]).Ok?
      ensures good(ReadPart(acc, parts[i]).value)
    {
      SemicolonPiece(text, i);
      PartPieces(acc, parts[i]);
    }
    KeptByAll(ReadPart, parts, good, |parts|);
  }

  /** Whatever is read is valid, printable, and already normalized. */
  lemma ReadIsPrintable(line: string)
    requires RidOf(line).Ok?
    ensures var r := RidOf(line).value;
            ValidRid(r) && PrintableRid(r) && Normalized(r) == r
  {
    var fields := Fields(AfterPrefix(Trim(line), "a=rid:"));
    var r := RidOf(line).value;
    FieldsAreWords(AfterPrefix(Trim(line), "a=rid:"));
    if |fields| > 2 {
      assert AreWords(fields[2..]);
      JoinedIsTidy(fields[2..]);
      TextPieces(Join(fields[2..], ' '));
    }
    forall i | 0 <= i < |r.payloadTypes|
      ensures Trim(r.payloadTypes[i]) == r.payloadTypes[i] && Printable(r.payloadTypes[i])
    {
      assert ReadType(r.payloadTypes[i]);
      TrimId(r.payloadTypes[i]);
    }
    assert Trims(r.payloadTypes) == r.payloadTypes;
    CanonicalTwice(fields[1]);
  }

  lemma CanonicalTwice(d: string)
    requires Canonical(d) == "send" || Canonical(d) == "recv" || Canonical(Canonical(d)) == "send" || Canonical(Canonical(d)) == "recv"
    ensures Canonical(Canonical(d)) == Canonical(d)
  {
    TrimmedInside(d);
    var t := Trim(d);
    var l := ToLower(t);
    assert l != [] ==> IsSpace(l[0]) == IsSpace(t[0]) && IsSpace(l[|l| - 1]) == IsSpace(t[|t| - 1]);
    TrimId(l);
    assert ToLower(l) == l;
  }

  /** Round trip: a valid attribute is read back from what is printed, up to the case of its direction and
      the spaces around its parts, exactly when its payload types are printable. Numbers always are. */
  lemma RoundTrip(r: Rid)
    requires ValidRid(r)
    ensures RidOf(Printed(r)) == Ok(Normalized(r)) <==> PrintableRid(r)
  {
    NormalizedValid(r);
    if PrintableRid(r) {
      ReadsBack(r);
    } else if RidOf(Printed(r)) == Ok(Normalized(r)) {
      ReadIsPrintable(Printed(r));
    }
  }

  /** What is read from any line is read again from what is printed of it. */
  lemma Stable(line: string)
    requires RidOf(line).Ok?
    ensures ValidRid(RidOf(line).value) && RidOf(Printed(RidOf(line).value)) == RidOf(line)
  {
    ReadIsPrintable(line);
    ReadsBack(RidOf(line).value);
  }

  lemma NumbersArePrintable(p: string)
    requires p != "" && AllDigits(p)
    ensures Printable(p) && ValidPayloadType(p)
  {
    DigitsText(p);
    TrimId(p);
    WordIsTidy(p);
    assert forall i | 0 <= i < |p| :: IsDigit(p[i]);
  }

  /** A valid payload type that is lost: with a semicolon inside it would be read as two parameters. */
  lemma SemicolonLost(r: Rid)
    requires ValidRid(r) && "1;2" in r.payloadTypes
    ensures RidOf(Printed(r)) != Ok(Normalized(r))
  {
    var p := "1;2";
    var i :| 0 <= i < |r.payloadTypes| && r.payloadTypes[i] == p;
    TrimId(p);
    assert p[1] == ';';
    assert !Printable(p);
    RoundTrip(r);
  }
}
