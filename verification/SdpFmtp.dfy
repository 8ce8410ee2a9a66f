/**
 Format parameters: profile, level and tier of an AV1 stream, as text and as an order of capabilities.
 */
module SdpFmtp {
  import opened Values
  import opened Numbers
  import opened Text
  import opened SdpRid

  datatype Fmtp = Fmtp(profile: Int, level: Int, tier: Int)

  const DEFAULT: Fmtp := Fmtp(0, 5, 0)

  const LEVEL_MAX: Int := 31

  predicate ValidLevel(level: Int) {
    level == LEVEL_MAX || (0 <= level < 20 && level !in {2, 3, 6, 7, 10, 11})
  }

  predicate ValidFmtp(p: Fmtp) {
    && 0 <= p.profile <= 2 && ValidLevel(p.level) && 0 <= p.tier <= 1
    && (p.level <= 7 ==> p.tier == 0)
  }

  /** Which parameters are valid, value by value. */
  lemma ValidIff(p: Fmtp)
    ensures ValidFmtp(p) <==>
              && p.profile in {0, 1, 2} && p.tier in {0, 1}
              && p.level in {0, 1, 4, 5, 8, 9, 12, 13, 14, 15, 16, 17, 18, 19, 31}
              && (p.tier == 1 ==> p.level >= 8)
  {
  }

  type Checked = p: Fmtp | ValidFmtp(p) witness DEFAULT

  // ----- capabilities -----------------------------------------------------------------------

  /** Levels and tiers compare lexicographically. */
  function Compare(levelA: Int, tierA: Int, levelB: Int, tierB: Int): int {
    if levelA < levelB then -1
    else if levelA > levelB then 1
    else if tierA < tierB then -1
    else if tierA > tierB then 1
    else 0
  }

  predicate Fits(stream: Fmtp, caps: Fmtp) {
    stream.profile <= caps.profile && Compare(stream.level, stream.tier, caps.level, caps.tier) <= 0
  }

  /** Whether a receiver with these capabilities accepts the stream. */
  function Allows(caps: Fmtp, stream: Fmtp): Result<bool> {
    if !ValidFmtp(caps) || !ValidFmtp(stream) then Err else Ok(Fits(stream, caps))
  }

  /** A stream is accepted exactly if its profile is not above the receiver's, and its level is below, or equal with
      a tier that is not above. */
  lemma AllowsIff(caps: Fmtp, stream: Fmtp)
    ensures Allows(caps, stream).Ok? <==> ValidFmtp(caps) && ValidFmtp(stream)
    ensures Allows(caps, stream) == Ok(true) <==>
              && ValidFmtp(caps) && ValidFmtp(stream) && stream.profile <= caps.profile
              && (stream.level < caps.level || (stream.level == caps.level && stream.tier <= caps.tier))
  {
  }

  /** A sequence header: its profile, and level and tier of each operating point. */
  datatype Sequence = Sequence(profile: nat, points: seq<(Int, Int)>)

  const MAX_POINTS: nat := 32

  function PointOf(s: Sequence, i: nat): Fmtp
    requires i < |s.points| && s.profile <= 2
  {
    Fmtp(s.profile, s.points[i].0, s.points[i].1)
  }

  predicate ValidSequence(s: Sequence) {
    && s.profile <= 2 && 0 < |s.points| <= MAX_POINTS
    && forall i | 0 <= i < |s.points| :: ValidFmtp(PointOf(s, i))
  }

  /** No operating point exceeds these parameters, and they are those of one of the points, or of level 0. */
  ghost predicate Advertises(s: Sequence, adv: Fmtp) {
    && adv.profile == s.profile
    && (forall i | 0 <= i < |s.points| ::
          s.points[i].0 < adv.level || (s.points[i].0 == adv.level && s.points[i].1 <= adv.tier))
    && ((adv.level, adv.tier) == (0, 0) || (adv.level, adv.tier) in s.points)
  }

  /** The parameters to advertise: those of the most demanding operating point. It is a valid choice, no
      operating point exceeds it, and it demands no more than one of them does, or than level 0. */
  method ForSequence(s: Sequence) returns (res: Result<Fmtp>)
    ensures res.Ok? <==>
              && s.profile <= 2 && 0 < |s.points| <= MAX_POINTS
              && forall i | 0 <= i < |s.points| :: ValidFmtp(Fmtp(s.profile, s.points[i].0, s.points[i].1))
    ensures res.Ok? ==> ValidFmtp(res.value) && Advertises(s, res.value)
  {
    if s.profile > 2 || |s.points| == 0 || |s.points| > MAX_POINTS {
      return Err;
    }
    var out := Fmtp(s.profile, 0, 0);
    for i := 0 to |s.points|
      invariant ValidFmtp(out) && out.profile == s.profile
      invariant forall k | 0 <= k < i ::
                  && ValidFmtp(Fmtp(s.profile, s.points[k].0, s.points[k].1))
                  && (s.points[k].0 < out.level || (s.points[k].0 == out.level && s.points[k].1 <= out.tier))
      invariant (out.level, out.tier) == (0, 0) || (out.level, out.tier) in s.points
    {
      var current := PointOf(s, i);
      if !ValidFmtp(current) {
        return Err;
      }
      if Compare(current.level, current.tier, out.level, out.tier) > 0 {
        out := current;
      }
    }
    return Ok(out);
  }

  /** A receiver that accepts what a sequence advertises accepts every operating point of it, and the other
      way round: asking about the advertised parameters is asking about all of them. */
  lemma AdvertisedIsAll(caps: Fmtp, s: Sequence, adv: Fmtp)
    requires ValidFmtp(caps) && ValidSequence(s) && ValidFmtp(adv) && Advertises(s, adv)
    ensures Allows(caps, adv) == Ok(true) <==> forall i | 0 <= i < |s.points| :: Allows(caps, PointOf(s, i)) == Ok(true)
  {
    if Allows(caps, adv) == Ok(true) {
      forall i | 0 <= i < |s.points|
        ensures Allows(caps, PointOf(s, i)) == Ok(true)
      {
        AllowsIff(caps, PointOf(s, i));
      }
    } else if (adv.level, adv.tier) in s.points {
      var i :| 0 <= i < |s.points| && s.points[i] == (adv.level, adv.tier);
      assert PointOf(s, i) == adv;
    } else {
      AllowsIff(caps, PointOf(s, 0));
    }
  }

  // ----- text -------------------------------------------------------------------------------

  const KEYS3: seq<string> := ["profile", "level-idx", "tier"]

  /** The three parameters; a blank follows each semicolon. */
  function Texts(p: Fmtp): seq<string>
    requires ValidFmtp(p)
  {
    ["" + KEYS3[0] + ['='] + Itoa(p.profile), [' '] + KEYS3[1] + ['='] + Itoa(p.level), [' '] + KEYS3[2] + ['='] + Itoa(p.tier)]
  }

  function Printed(p: Fmtp): string
    requires ValidFmtp(p)
  {
    Join(Texts(p), ';')
  }

  datatype Reading = Reading(p: Fmtp, saw: set<nat>)

  function KeyOf(key: string): Option<nat> {
    if key == KEYS3[0] then Some(0) else if key == KEYS3[1] then Some(1) else if key == KEYS3[2] then Some(2) else None
  }

  function With(p: Fmtp, k: nat, n: Int): Fmtp {
    if k == 0 then p.(profile := n) else if k == 1 then p.(level := n) else p.(tier := n)
  }

  /** Reads one parameter. Unknown ones are ignored; a known one may not be repeated. */
  function ReadFmtpPart(acc: Reading, part: string): Result<Reading> {
    var t := Trim(part);
    if t == "" then Ok(acc)
    else
      var (key, value, found) := Cut(t, '=');
      var k := KeyOf(ToLower(Trim(key)));
      if !found then Err
      else if k.None? then Ok(acc)
      else
        var n := Atoi(Trim(value));
        if k.value in acc.saw || n.None? then Err
        else Ok(Reading(With(acc.p, k.value, n.value), acc.saw + {k.value}))
  }

  const UNREAD: Reading := Reading(DEFAULT, {})

  type PartReader = (Reading, string) -> Result<Reading>

  /** The first k parts, one after the other; an error is an error of the whole. */
  function ReadFmtpParts(step: PartReader, parts: seq<string>, k: nat): Result<Reading>
    requires k <= |parts|
  {
    if k == 0 then Ok(UNREAD)
    else
      var before := ReadFmtpParts(step, parts, k - 1);
      if before.Err? then Err else step(before.value, parts[k - 1])
  }

  lemma {:induction false} ReadFmtpFails(step: PartReader, parts: seq<string>, k: nat, m: nat)
    requires k <= m <= |parts| && ReadFmtpParts(step, parts, k).Err?
    ensures ReadFmtpParts(step, parts, m).Err?
  {
    if k < m {
      ReadFmtpFails(step, parts, k, m - 1);
    }
  }

  function FmtpOf(text: string): Result<Checked> {
    var parts := Split(text, ';');
    var res := ReadFmtpParts(ReadFmtpPart, parts, |parts|);
    if res.Ok? && ValidFmtp(res.value.p) then Ok(res.value.p) else Err
  }

  method ParseFmtp(text: string) returns (res: Result<Checked>)
    ensures res == FmtpOf(text)
  {
    var parts := Split(text, ';');
    var acc := UNREAD;
    for i := 0 to |parts|
      invariant ReadFmtpParts(ReadFmtpPart, parts, i) == Ok(acc)
    {
      var next := ReadFmtpPart(acc, parts[i]);
      if next.Err? {
        ReadFmtpFails(ReadFmtpPart, parts, i + 1, |parts|);
        return Err;
      }
      acc := next.value;
    }
    return if ValidFmtp(acc.p) then Ok(acc.p) else Err;
  }

  // ----- what a text says -------------------------------------------------------------------

  /** The part says that the parameter named key is value, up to spaces and case. */
  ghost predicate Says(part: string, key: string, value: string) {
    exists a, b :: Trim(part) == a + ['='] + b && '=' !in a && ToLower(Trim(a)) == key && Trim(b) == value
  }

  /** The value it says, if it mentions key. */
  ghost function Said(part: string, key: string): Option<string> {
    if v :| Says(part, key, v) then Some(v) else None
  }

  ghost function SaidOf(parts: seq<string>, key: string): (vs: seq<Option<string>>)
    ensures |vs| == |parts| && forall i | 0 <= i < |parts| :: vs[i] == Said(parts[i], key)
  {
    seq(|parts|, i requires 0 <= i < |parts| => Said(parts[i], key))
  }

  /** Of the first k values, there is none and n is the default, or there is exactly one and it denotes n. */
  predicate Gives(vs: seq<Option<string>>, k: nat, default_: Int, n: Int)
    requires k <= |vs|
  {
    if forall i | 0 <= i < k :: vs[i].None? then n == default_
    else exists i :: 0 <= i < k && vs[i].Some? && Atoi(vs[i].value) == Some(n) && forall j | 0 <= j < k && vs[j].Some? :: j == i
  }

  /** Neither blank nor with an equals sign. */
  predicate Bare(part: string) {
    Trim(part) != "" && '=' !in Trim(part)
  }

  ghost predicate NoneBare(parts: seq<string>, k: nat)
    requires k <= |parts|
  {
    forall i | 0 <= i < k :: !Bare(parts[i])
  }

  /** What the first k parts say altogether. */
  ghost predicate Means(parts: seq<string>, k: nat, p: Fmtp)
    requires k <= |parts|
  {
    && NoneBare(parts, k)
    && Gives(SaidOf(parts, "profile"), k, 0, p.profile)
    && Gives(SaidOf(parts, "level-idx"), k, 5, p.level)
    && Gives(SaidOf(parts, "tier"), k, 0, p.tier)
  }

  /** A part cut at its first equals sign. */
  lemma CutSays(part: string, key: string, value: string)
    ensures Says(part, key, value) <==>
              var (a, b, found) := Cut(Trim(part), '=');
              found && ToLower(Trim(a)) == key && Trim(b) == value
  {
    var t := Trim(part);
    var (a, b, found) := Cut(t, '=');
    if found {
      assert t == a + ['='] + b;
    }
    if Says(part, key, value) {
      var c, d :| t == c + ['='] + d && '=' !in c && ToLower(Trim(c)) == key && Trim(d) == value;
      CutAt(c, '=', d);
    }
  }

  lemma CutFound(t: string)
    ensures Cut(t, '=').2 <==> '=' in t
  {
  }

  lemma SaidIs(part: string, key: string)
    ensures var (a, b, found) := Cut(Trim(part), '=');
            Said(part, key) == if found && ToLower(Trim(a)) == key then Some(Trim(b)) else None
  {
    var (a, b, found) := Cut(Trim(part), '=');
    CutSays(part, key, Trim(b));
    if v :| Says(part, key, v) {
      CutSays(part, key, v);
    }
    if Said(part, key).Some? {
      CutSays(part, key, Said(part, key).value);
    }
  }

  /** What reading one part does, by what it says about the three keys. */
  predicate Does(said: seq<Option<string>>, acc: Reading, bare: bool, next: Result<Reading>)
    requires |said| == 3
  {
    && (bare ==> next.Err?)
    && (!bare && (forall j | 0 <= j < 3 :: said[j].None?) ==> next == Ok(acc))
    && (forall j | 0 <= j < 3 && said[j].Some? ::
          var n := Atoi(said[j].value);
          && !bare && (forall i | 0 <= i < 3 && i != j :: said[i].None?)
          && next == if j in acc.saw || n.None? then Err else Ok(Reading(With(acc.p, j, n.value), acc.saw + {j})))
  }

  ghost function AllSaid(keys: seq<string>, part: string): (said: seq<Option<string>>)
    requires |keys| == 3
    ensures |said| == 3 && forall j | 0 <= j < 3 :: said[j] == Said(part, keys[j])
  {
    [Said(part, keys[0]), Said(part, keys[1]), Said(part, keys[2])]
  }

  ghost predicate PartDoes(keys: seq<string>, acc: Reading, part: string, next: Result<Reading>)
    requires |keys| == 3
  {
    Does(AllSaid(keys, part), acc, Bare(part), next)
  }

  lemma DoesBy(said: seq<Option<string>>, acc: Reading, blank: bool, next: Result<Reading>, value: string, found: bool, k: Option<nat>)
    requires |said| == 3 && (blank ==> !found) && (k.Some? ==> k.value < 3)
    requires forall j | 0 <= j < 3 :: said[j] == if found && k == Some(j) then Some(value) else None
    requires next == if blank then Ok(acc) else if !found then Err else if k.None? then Ok(acc)
                     else if k.value in acc.saw || Atoi(value).None? then Err
                     else Ok(Reading(With(acc.p, k.value, Atoi(value).value), acc.saw + {k.value}))
    ensures Does(said, acc, !blank && !found, next)
  {
  }

  lemma KeyOfIff(key: string, j: nat)
    requires j < 3
    ensures KeyOf(key) == Some(j) <==> key == KEYS3[j]
  {
    assert KEYS3[0] != KEYS3[1] && KEYS3[0] != KEYS3[2] && KEYS3[1] != KEYS3[2];
  }

  lemma PartMeans(acc: Reading, part: string)
    ensures PartDoes(KEYS3, acc, part, ReadFmtpPart(acc, part))
  {
    var (a, b, found) := Cut(Trim(part), '=');
    var key := ToLower(Trim(a));
    CutFound(Trim(part));
    forall j | 0 <= j < 3
      ensures Said(part, KEYS3[j]) == if found && KeyOf(key) == Some(j) then Some(Trim(b)) else None
    {
      SaidIs(part, KEYS3[j]);
      KeyOfIff(key, j);
    }
    DoesBy(AllSaid(KEYS3, part), acc, Trim(part) == "", ReadFmtpPart(acc, part), Trim(b), found, KeyOf(key));
  }

  /** No further value leaves what is given. */
  lemma GivesSkip(vs: seq<Option<string>>, k: nat, default_: Int, n: Int)
    requires 0 < k <= |vs| && vs[k - 1].None?
    ensures Gives(vs, k, default_, n) <==> Gives(vs, k - 1, default_, n)
  {
    if Gives(vs, k, default_, n) && !(forall i | 0 <= i < k :: vs[i].None?) {
      var i :| 0 <= i < k && vs[i].Some? && Atoi(vs[i].value) == Some(n) && forall j | 0 <= j < k && vs[j].Some? :: j == i;
      assert i < k - 1;
    }
  }

  /** One more value gives what it denotes, if it is the first. */
  lemma GivesTake(vs: seq<Option<string>>, k: nat, default_: Int, n: Int)
    requires 0 < k <= |vs| && vs[k - 1].Some?
    ensures Gives(vs, k, default_, n) <==> (forall i | 0 <= i < k - 1 :: vs[i].None?) && Atoi(vs[k - 1].value) == Some(n)
  {
  }

  function Field(p: Fmtp, j: nat): Int {
    if j == 0 then p.profile else if j == 1 then p.level else p.tier
  }

  /** What has been read about one key is what the first k parts say about it. */
  ghost predicate KeyRight(vs: seq<Option<string>>, k: nat, default_: Int, seen: bool, n: Int)
    requires k <= |vs|
  {
    (seen <==> exists i :: 0 <= i < k && vs[i].Some?) && Gives(vs, k, default_, n)
  }

  ghost predicate NothingGiven(vs: seq<Option<string>>, k: nat, default_: Int)
    requires k <= |vs|
  {
    forall n: Int :: !Gives(vs, k, default_, n)
  }

  lemma KeySkip(vs: seq<Option<string>>, k: nat, default_: Int, seen: bool, n: Int)
    requires 0 < k <= |vs| && vs[k - 1].None? && KeyRight(vs, k - 1, default_, seen, n)
    ensures KeyRight(vs, k, default_, seen, n)
  {
    GivesSkip(vs, k, default_, n);
  }

  lemma KeyTake(vs: seq<Option<string>>, k: nat, default_: Int, seen: bool, n: Int)
    requires 0 < k <= |vs| && vs[k - 1].Some? && KeyRight(vs, k - 1, default_, seen, n)
    ensures if seen || Atoi(vs[k - 1].value).None? then NothingGiven(vs, k, default_)
            else KeyRight(vs, k, default_, true, Atoi(vs[k - 1].value).value)
  {
    forall m: Int
      ensures Gives(vs, k, default_, m) <==> !seen && Atoi(vs[k - 1].value) == Some(m)
    {
      GivesTake(vs, k, default_, m);
    }
  }

  lemma NothingStays(vs: seq<Option<string>>, k: nat, default_: Int)
    requires 0 < k <= |vs| && NothingGiven(vs, k - 1, default_)
    ensures NothingGiven(vs, k, default_)
  {
    forall n: Int
      ensures !Gives(vs, k, default_, n)
    {
      if vs[k - 1].None? {
        GivesSkip(vs, k, default_, n);
      } else {
        GivesTake(vs, k, default_, n);
        assert !Gives(vs, k - 1, default_, default_);
      }
    }
  }

  /** What has been read is what the parts say, and after an error they say nothing. */
  ghost predicate ReadRight(keys: seq<string>, parts: seq<string>, k: nat, res: Result<Reading>)
    requires |keys| == 3 && k <= |parts|
  {
    match res
    case Ok(acc) =>
      && NoneBare(parts, k)
      && forall j | 0 <= j < 3 ::
           KeyRight(SaidOf(parts, keys[j]), k, Field(DEFAULT, j), j in acc.saw, Field(acc.p, j))
    case Err =>
      !NoneBare(parts, k) || exists j :: 0 <= j < 3 && NothingGiven(SaidOf(parts, keys[j]), k, Field(DEFAULT, j))
  }

  lemma OtherKey(keys: seq<string>, parts: seq<string>, k: nat, acc: Reading, i: nat, acc': Reading)
    requires |keys| == 3 && 0 < k <= |parts| && i < 3
    requires KeyRight(SaidOf(parts, keys[i]), k - 1, Field(DEFAULT, i), i in acc.saw, Field(acc.p, i))
    requires Said(parts[k - 1], keys[i]).None? && (i in acc'.saw <==> i in acc.saw) && Field(acc'.p, i) == Field(acc.p, i)
    ensures KeyRight(SaidOf(parts, keys[i]), k, Field(DEFAULT, i), i in acc'.saw, Field(acc'.p, i))
  {
    KeySkip(SaidOf(parts, keys[i]), k, Field(DEFAULT, i), i in acc.saw, Field(acc.p, i));
  }

  lemma FieldWith(p: Fmtp, j: nat, n: Int, i: nat)
    requires i < 3 && j < 3
    ensures Field(With(p, j, n), i) == if i == j then n else Field(p, i)
  {
  }

  lemma TakesOk(keys: seq<string>, parts: seq<string>, k: nat, acc: Reading, j: nat, n: Int)
    requires |keys| == 3 && 0 < k <= |parts| && ReadRight(keys, parts, k - 1, Ok(acc)) && j < 3 && !Bare(parts[k - 1])
    requires forall i | 0 <= i < 3 && i != j :: Said(parts[k - 1], keys[i]).None?
    requires KeyRight(SaidOf(parts, keys[j]), k, Field(DEFAULT, j), true, n)
    ensures ReadRight(keys, parts, k, Ok(Reading(With(acc.p, j, n), acc.saw + {j})))
  {
    var acc' := Reading(With(acc.p, j, n), acc.saw + {j});
    forall i | 0 <= i < 3
      ensures KeyRight(SaidOf(parts, keys[i]), k, Field(DEFAULT, i), i in acc'.saw, Field(acc'.p, i))
    {
      FieldWith(acc.p, j, n, i);
      if i != j {
        OtherKey(keys, parts, k, acc, i, acc');
      }
    }
  }

  /** A part that mentions key j. */
  lemma PartTakes(keys: seq<string>, parts: seq<string>, k: nat, acc: Reading, next: Result<Reading>, j: nat)
    requires |keys| == 3 && 0 < k <= |parts| && ReadRight(keys, parts, k - 1, Ok(acc)) && PartDoes(keys, acc, parts[k - 1], next)
    requires j < 3 && Said(parts[k - 1], keys[j]).Some?
    ensures ReadRight(keys, parts, k, next)
  {
    var n := Atoi(Said(parts[k - 1], keys[j]).value);
    assert AllSaid(keys, parts[k - 1])[j] == Said(parts[k - 1], keys[j]);
    KeyTake(SaidOf(parts, keys[j]), k, Field(DEFAULT, j), j in acc.saw, Field(acc.p, j));
    if j !in acc.saw && n.Some? {
      forall i | 0 <= i < 3 && i != j
        ensures Said(parts[k - 1], keys[i]).None?
      {
        assert AllSaid(keys, parts[k - 1])[i] == Said(parts[k - 1], keys[i]);
      }
      TakesOk(keys, parts, k, acc, j, n.value);
    } else {
      assert next.Err? && NothingGiven(SaidOf(parts, keys[j]), k, Field(DEFAULT, j));
    }
  }

  lemma PartRight(keys: seq<string>, parts: seq<string>, k: nat, acc: Reading, next: Result<Reading>)
    requires |keys| == 3 && 0 < k <= |parts| && ReadRight(keys, parts, k - 1, Ok(acc)) && PartDoes(keys, acc, parts[k - 1], next)
    ensures ReadRight(keys, parts, k, next)
  {
    if j :| 0 <= j < 3 && Said(parts[k - 1], keys[j]).Some? {
      PartTakes(keys, parts, k, acc, next, j);
    } else if next.Ok? {
      forall i | 0 <= i < 3
        ensures KeyRight(SaidOf(parts, keys[i]), k, Field(DEFAULT, i), i in next.value.saw, Field(next.value.p, i))
      {
        OtherKey(keys, parts, k, acc, i, next.value);
      }
    }
  }

  lemma ErrStays(keys: seq<string>, parts: seq<string>, k: nat)
    requires |keys| == 3 && 0 < k <= |parts| && ReadRight(keys, parts, k - 1, Err)
    ensures ReadRight(keys, parts, k, Err)
  {
    if NoneBare(parts, k) {
      var j :| 0 <= j < 3 && NothingGiven(SaidOf(parts, keys[j]), k - 1, Field(DEFAULT, j));
      NothingStays(SaidOf(parts, keys[j]), k, Field(DEFAULT, j));
    }
  }

  lemma StartRight(keys: seq<string>, parts: seq<string>)
    requires |keys| == 3
    ensures ReadRight(keys, parts, 0, Ok(UNREAD))
  {
  }

  /** One more part, after an error or not. */
  lemma PartAfter(keys: seq<string>, parts: seq<string>, k: nat, before: Result<Reading>, next: Result<Reading>)
    requires |keys| == 3 && 0 < k <= |parts| && ReadRight(keys, parts, k - 1, before)
    requires if before.Ok? then PartDoes(keys, before.value, parts[k - 1], next) else next.Err?
    ensures ReadRight(keys, parts, k, next)
  {
    if before.Ok? {
      PartRight(keys, parts, k, before.value, next);
    } else {
      ErrStays(keys, parts, k);
    }
  }

  lemma {:induction false} PartsRight(keys: seq<string>, step: PartReader, parts: seq<string>, k: nat)
    requires |keys| == 3 && k <= |parts|
    requires forall acc, part :: PartDoes(keys, acc, part, step(acc, part))
    ensures ReadRight(keys, parts, k, ReadFmtpParts(step, parts, k))
  {
    if k > 0 {
      PartsRight(keys, step, parts, k - 1);
      PartAfter(keys, parts, k, ReadFmtpParts(step, parts, k - 1), ReadFmtpParts(step, parts, k));
    } else {
      StartRight(keys, parts);
    }
  }

  lemma GivesOne(vs: seq<Option<string>>, k: nat, default_: Int, n: Int, m: Int)
    requires k <= |vs| && Gives(vs, k, default_, n) && Gives(vs, k, default_, m)
    ensures n == m
  {
  }

  /** A text gives parameters exactly if they are valid, every part is blank or has an equals sign, and each of the
      three keys is mentioned by no part, the value being the default, or by one part whose value is a number. Parts
      that mention other keys do not matter. */
  lemma FmtpIff(text: string, p: Fmtp)
    ensures FmtpOf(text) == Ok(p) <==> ValidFmtp(p) && Means(Split(text, ';'), |Split(text, ';')|, p)
  {
    var parts, step := Split(text, ';'), ReadFmtpPart;
    forall acc, part
      ensures PartDoes(KEYS3, acc, part, step(acc, part))
    {
      PartMeans(acc, part);
    }
    PartsRight(KEYS3, step, parts, |parts|);
    MeansByKey(parts, p);
    ReadMeans(KEYS3, parts, ReadFmtpParts(step, parts, |parts|), p);
  }

  /** The parameters read are the only ones that the parts give. */
  lemma ReadMeans(keys: seq<string>, parts: seq<string>, res: Result<Reading>, p: Fmtp)
    requires |keys| == 3 && ReadRight(keys, parts, |parts|, res)
    ensures (res.Ok? && res.value.p == p) <==>
              && NoneBare(parts, |parts|)
              && forall j | 0 <= j < 3 :: Gives(SaidOf(parts, keys[j]), |parts|, Field(DEFAULT, j), Field(p, j))
  {
    if res.Ok? && forall j | 0 <= j < 3 :: Gives(SaidOf(parts, keys[j]), |parts|, Field(DEFAULT, j), Field(p, j)) {
      forall j | 0 <= j < 3
        ensures Field(res.value.p, j) == Field(p, j)
      {
        assert KeyRight(SaidOf(parts, keys[j]), |parts|, Field(DEFAULT, j), j in res.value.saw, Field(res.value.p, j));
        GivesOne(SaidOf(parts, keys[j]), |parts|, Field(DEFAULT, j), Field(res.value.p, j), Field(p, j));
      }
      assert Field(p, 0) == p.profile && Field(p, 1) == p.level && Field(p, 2) == p.tier;
    }
  }

  lemma MeansByKey(parts: seq<string>, p: Fmtp)
    ensures Means(parts, |parts|, p) <==>
              NoneBare(parts, |parts|) && forall j | 0 <= j < 3 :: Gives(SaidOf(parts, KEYS3[j]), |parts|, Field(DEFAULT, j), Field(p, j))
  {
    assert Field(DEFAULT, 0) == 0 && Field(DEFAULT, 1) == 5 && Field(DEFAULT, 2) == 0;
    assert Field(p, 0) == p.profile && Field(p, 1) == p.level && Field(p, 2) == p.tier;
  }

  lemma Key3Text(k: nat)
    requires k < |KEYS3|
    ensures KEYS3[k] != "" && NoSpace(KEYS3[k]) && '=' !in KEYS3[k] && ';' !in KEYS3[k]
    ensures ToLower(KEYS3[k]) == KEYS3[k] && KeyOf(KEYS3[k]) == Some(k)
  {
  }

  lemma TrimBlank(blank: string, t: string)
    requires (blank == "" || blank == [' ']) && Trimmed(t)
    ensures Trim(blank + t) == t
  {
    TrimId(t);
    assert blank == "" ==> blank + t == t;
    assert blank == [' '] ==> (blank + t)[1..] == t && TrimLeft(blank + t) == TrimLeft(t);
  }

  /** One printed parameter, with a blank before it or not. */
  lemma FmtpPartReads(acc: Reading, blank: string, k: nat, n: Int)
    requires k < |KEYS3| && n >= 0 && k !in acc.saw && (blank == "" || blank == [' '])
    ensures ReadFmtpPart(acc, blank + KEYS3[k] + ['='] + Itoa(n)) == Ok(Reading(With(acc.p, k, n), acc.saw + {k}))
  {
    Key3Text(k);
    DigitsText(Itoa(n));
    AtoiItoa(n);
    KeyValueReads(acc, blank, KEYS3[k], Itoa(n), k, n);
  }

  lemma KeyValueReads(acc: Reading, blank: string, key: string, value: string, k: nat, n: Int)
    requires k < 3 && k !in acc.saw && (blank == "" || blank == [' '])
    requires key != "" && NoSpace(key) && '=' !in key && ToLower(key) == key && KeyOf(key) == Some(k)
    requires value != "" && NoSpace(value) && Atoi(value) == Some(n)
    ensures ReadFmtpPart(acc, blank + key + ['='] + value) == Ok(Reading(With(acc.p, k, n), acc.saw + {k}))
  {
    var t := key + ['='] + value;
    assert t[0] == key[0] && t[|t| - 1] == value[|value| - 1];
    assert blank + key + ['='] + value == blank + t;
    TrimBlank(blank, t);
    CutAt(key, '=', value);
    TrimId(key);
    TrimId(value);
  }

  lemma TextsRead(p: Fmtp)
    requires ValidFmtp(p)
    ensures ReadFmtpParts(ReadFmtpPart, Texts(p), 3) == Ok(Reading(p, {0, 1, 2}))
  {
    var t := Texts(p);
    var a1 := Reading(With(DEFAULT, 0, p.profile), {0});
    var a2 := Reading(With(a1.p, 1, p.level), {0, 1});
    FmtpPartReads(UNREAD, "", 0, p.profile);
    FmtpPartReads(a1, [' '], 1, p.level);
    FmtpPartReads(a2, [' '], 2, p.tier);
    assert {} + {0} == {0} && {0} + {1} == {0, 1} && {0, 1} + {2} == {0, 1, 2};
    ThreeParts(a1, a2, t);
  }

  lemma NoSemicolon(blank: string, k: nat, n: nat)
    requires k < |KEYS3| && (blank == "" || blank == [' '])
    ensures ';' !in blank + KEYS3[k] + ['='] + Itoa(n)
  {
    Key3Text(k);
    DigitsText(Itoa(n));
  }

  lemma TextsText(p: Fmtp)
    requires ValidFmtp(p)
    ensures NoneContains(Texts(p), ';')
  {
    NoSemicolon("", 0, p.profile);
    NoSemicolon([' '], 1, p.level);
    NoSemicolon([' '], 2, p.tier);
  }

  /** Round trip. */
  lemma RoundTrip(p: Fmtp)
    requires ValidFmtp(p)
    ensures FmtpOf(Printed(p)) == Ok(p)
  {
    TextsRead(p);
    TextsText(p);
    SplitJoin(Texts(p), ';');
  }

  lemma ThreeParts(a1: Reading, a2: Reading, t: seq<string>)
    requires |t| == 3 && ReadFmtpPart(UNREAD, t[0]) == Ok(a1) && ReadFmtpPart(a1, t[1]) == Ok(a2)
    ensures ReadFmtpParts(ReadFmtpPart, t, 3) == ReadFmtpPart(a2, t[2])
  {
    assert ReadFmtpParts(ReadFmtpPart, t, 0) == Ok(UNREAD);
    assert ReadFmtpParts(ReadFmtpPart, t, 1) == Ok(a1) && ReadFmtpParts(ReadFmtpPart, t, 2) == Ok(a2);
  }
}
