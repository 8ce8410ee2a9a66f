/**
 ASCII text, as the session-description code uses it: trimming, splitting, joining, and decimal numbers.
 */
module Text {
  import opened Values
  import opened Numbers

  // ----- characters -------------------------------------------------------------------------

  predicate IsSpace(c: char) {
    c == ' ' || 9 as char <= c <= 13 as char
  }

  /** Tab, line feed, vertical tab, form feed, carriage return and blank. */
  lemma SpaceIff(c: char)
    ensures IsSpace(c) <==> c as int in {9, 10, 11, 12, 13, 32}
  {
  }

  predicate NoSpace(s: string) {
    forall i | 0 <= i < |s| :: !IsSpace(s[i])
  }

  function LowerChar(c: char): char {
    if 'A' <= c <= 'Z' then c - 'A' + 'a' else c
  }

  function ToLower(s: string): (r: string)
    ensures |r| == |s|
  {
    seq(|s|, i requires 0 <= i < |s| => LowerChar(s[i]))
  }

  predicate StartsWith(s: string, prefix: string) {
    |prefix| <= |s| && s[..|prefix|] == prefix
  }

  // ----- trimming ---------------------------------------------------------------------------

  function TrimLeft(s: string): string {
    if s != [] && IsSpace(s[0]) then TrimLeft(s[1..]) else s
  }

  function TrimRight(s: string): string {
    if s != [] && IsSpace(s[|s| - 1]) then TrimRight(s[..|s| - 1]) else s
  }

  function Trim(s: string): string {
    TrimRight(TrimLeft(s))
  }

  /** No space at either end. */
  predicate Trimmed(s: string) {
    s == [] || (!IsSpace(s[0]) && !IsSpace(s[|s| - 1]))
  }

  lemma {:induction false} TrimLeftPart(s: string) returns (k: nat)
    ensures k <= |s| && TrimLeft(s) == s[k..]
    ensures TrimLeft(s) == [] || !IsSpace(TrimLeft(s)[0])
    ensures forall i | 0 <= i < k :: IsSpace(s[i])
  {
    if s != [] && IsSpace(s[0]) {
      k := TrimLeftPart(s[1..]);
      assert s[1..][k..] == s[k + 1..];
      assert forall i | 1 <= i < k + 1 :: s[i] == s[1..][i - 1];
      k := k + 1;
    } else {
      k := 0;
    }
  }

  lemma {:induction false} TrimRightPart(s: string) returns (k: nat)
    ensures k <= |s| && TrimRight(s) == s[..k]
    ensures TrimRight(s) == [] || !IsSpace(TrimRight(s)[|TrimRight(s)| - 1])
    ensures forall i | k <= i < |s| :: IsSpace(s[i])
  {
    if s != [] && IsSpace(s[|s| - 1]) {
      k := TrimRightPart(s[..|s| - 1]);
      assert s[..|s| - 1][..k] == s[..k];
      assert forall i | k <= i < |s| - 1 :: s[i] == s[..|s| - 1][i];
    } else {
      k := |s|;
    }
  }

  /** A trimmed string is a piece of the original. */
  lemma TrimPart(s: string) returns (a: nat, b: nat)
    ensures a <= b <= |s| && Trim(s) == s[a..b] && Trimmed(Trim(s))
    ensures forall i | 0 <= i < a || b <= i < |s| :: IsSpace(s[i])
  {
    a := TrimLeftPart(s);
    var t := TrimLeft(s);
    var k := TrimRightPart(t);
    b := a + k;
    assert s[a..][..k] == s[a..b];
    assert forall i | b <= i < |s| :: s[i] == t[i - a];
  }

  lemma TrimId(s: string)
    requires Trimmed(s)
    ensures Trim(s) == s
  {
  }

  lemma {:induction false} TrimRightKeeps(a: string, b: string)
    requires a != [] && !IsSpace(a[|a| - 1])
    ensures TrimRight(a + b) == a + TrimRight(b)
    decreases |b|
  {
    if b == [] {
      assert a + b == a;
    } else if IsSpace(b[|b| - 1]) {
      TrimRightKeeps(a, b[..|b| - 1]);
      assert (a + b)[..|a + b| - 1] == a + b[..|b| - 1];
    }
  }

  lemma SliceSlice(s: string, a: nat, b: nat, i: nat, j: nat)
    requires a <= b <= |s| && i <= j <= b - a
    ensures s[a..b][i..j] == s[a + i..a + j]
  {
    var x, y := s[a..b][i..j], s[a + i..a + j];
    forall k | 0 <= k < j - i
      ensures x[k] == y[k]
    {
      assert x[k] == s[a..b][i + k] == s[a + i + k];
    }
  }

  // ----- splitting and joining --------------------------------------------------------------

  /** The first position of c from i on, or the length. */
  function FindFrom(s: string, c: char, i: nat): (j: nat)
    requires i <= |s|
    ensures i <= j <= |s| && (forall k | i <= k < j :: s[k] != c) && (j < |s| ==> s[j] == c)
    decreases |s| - i
  {
    if i == |s| || s[i] == c then i else FindFrom(s, c, i + 1)
  }

  function Find(s: string, c: char): nat {
    FindFrom(s, c, 0)
  }

  /** The pieces of s from position i on, between occurrences of c. */
  function SplitFrom(s: string, c: char, i: nat): seq<string>
    requires i <= |s|
    decreases |s| - i
  {
    var j := FindFrom(s, c, i);
    if j == |s| then [s[i..j]] else [s[i..j]] + SplitFrom(s, c, j + 1)
  }

  function Split(s: string, c: char): seq<string> {
    SplitFrom(s, c, 0)
  }

  function Join(parts: seq<string>, c: char): string {
    if parts == [] then ""
    else if |parts| == 1 then parts[0]
    else parts[0] + [c] + Join(parts[1..], c)
  }

  predicate NoneContains(parts: seq<string>, c: char) {
    forall i | 0 <= i < |parts| :: c !in parts[i]
  }

  /** Splits at the first c: before, after, and whether there is one. */
  function Cut(s: string, c: char): (string, string, bool) {
    var i := Find(s, c);
    if i == |s| then (s, "", false) else (s[..i], s[i + 1..], true)
  }

  /** With a word free of c at position i, the search from there ends after it. */
  lemma FindAfter(s: string, i: nat, a: string, c: char, post: string)
    requires i <= |s| && s[i..] == a + post && c !in a && (post == "" || post[0] == c)
    ensures FindFrom(s, c, i) == i + |a| && s[i..i + |a|] == a && s[i + |a|..] == post
  {
    var t := s[i..];
    assert forall k | i <= k < |s| :: s[k] == t[k - i];
    assert forall k | i <= k < i + |a| :: s[k] == a[k - i];
    assert post != "" ==> s[i + |a|] == post[0];
  }

  lemma CutAt(a: string, c: char, b: string)
    requires c !in a
    ensures Cut(a + [c] + b, c) == (a, b, true)
  {
    var s := a + [c] + b;
    assert s[0..] == a + ([c] + b);
    FindAfter(s, 0, a, c, [c] + b);
    assert s[..|a|] == a && s[|a| + 1..] == b;
  }

  predicate Unsealed(k: int) {
    true
  }

  /** The pieces of s from position i on are ps; sealed, so that the proof below does not unfold them. */
  ghost predicate Splits(s: string, c: char, i: nat, ps: seq<string>) {
    i <= |s| && forall k: int {:trigger Unsealed(k)} :: Unsealed(k) ==> SplitFrom(s, c, i) == ps
  }

  lemma SplitsEnd(s: string, i: nat, a: string, c: char)
    requires i <= |s| && s[i..] == a && c !in a
    ensures Splits(s, c, i, [a])
  {
    assert s[i..] == a + "";
    FindAfter(s, i, a, c, "");
  }

  lemma SplitsStep(s: string, i: nat, a: string, c: char, rest: string, ps: seq<string>)
    requires i <= |s| && s[i..] == a + ([c] + rest) && c !in a && Splits(s, c, i + |a| + 1, ps)
    ensures Splits(s, c, i, [a] + ps)
  {
    assert Unsealed(0);
    FindAfter(s, i, a, c, [c] + rest);
  }

  lemma AfterPart(s: string, i: nat, a: string, c: char, rest: string)
    requires i <= |s| && s[i..] == a + ([c] + rest)
    ensures i + |a| + 1 <= |s| && s[i + |a| + 1..] == rest
  {
    assert s[i + |a| + 1..] == s[i..][|a| + 1..];
  }

  lemma {:induction false} SplitJoinFrom(s: string, i: nat, parts: seq<string>, c: char)
    requires parts != [] && NoneContains(parts, c) && i <= |s| && s[i..] == Join(parts, c)
    ensures Splits(s, c, i, parts)
    decreases |parts|
  {
    if |parts| == 1 {
      SplitsEnd(s, i, parts[0], c);
      assert parts == [parts[0]];
    } else {
      var first, others := parts[0], parts[1..];
      var rest := Join(others, c);
      assert first + [c] + rest == first + ([c] + rest);
      AfterPart(s, i, first, c, rest);
      SplitJoinFrom(s, i + |first| + 1, others, c);
      SplitsStep(s, i, first, c, rest, others);
      assert parts == [first] + others;
    }
  }

  /** Splitting undoes joining. */
  lemma SplitJoin(parts: seq<string>, c: char)
    requires parts != [] && NoneContains(parts, c)
    ensures Split(Join(parts, c), c) == parts
  {
    var s := Join(parts, c);
    assert s[0..] == s;
    SplitJoinFrom(s, 0, parts, c);
    assert Unsealed(0);
  }

  lemma {:induction false} SplitFromParts(s: string, c: char, i: nat, k: nat) returns (a: nat, b: nat)
    requires i <= |s| && k < |SplitFrom(s, c, i)|
    ensures a <= b <= |s| && SplitFrom(s, c, i)[k] == s[a..b] && forall j | a <= j < b :: s[j] != c
    decreases k
  {
    var end := FindFrom(s, c, i);
    if k == 0 {
      a, b := i, end;
    } else {
      a, b := SplitFromParts(s, c, end + 1, k - 1);
    }
  }

  /** Every piece of a split is a piece of the string, without the separator. */
  lemma SplitParts(s: string, c: char, k: nat) returns (a: nat, b: nat)
    requires k < |Split(s, c)|
    ensures a <= b <= |s| && Split(s, c)[k] == s[a..b] && c !in s[a..b]
  {
    a, b := SplitFromParts(s, c, 0, k);
  }

  lemma JoinCons(a: string, rest: seq<string>, c: char)
    requires rest != []
    ensures Join([a] + rest, c) == a + [c] + Join(rest, c)
  {
    assert ([a] + rest)[1..] == rest;
  }

  lemma SplitAtOne(s: string, i: nat, j: nat)
    requires i <= j < |s|
    ensures s[i..] == s[i..j] + [s[j]] + s[j + 1..]
  {
  }

  lemma JoinSplitStep(s: string, c: char, i: nat, j: nat, rest: seq<string>)
    requires i <= j < |s| && s[j] == c && rest != [] && Join(rest, c) == s[j + 1..]
    ensures Join([s[i..j]] + rest, c) == s[i..]
  {
    JoinCons(s[i..j], rest, c);
    SplitAtOne(s, i, j);
  }

  lemma {:induction false} JoinSplitFrom(s: string, c: char, i: nat)
    requires i <= |s|
    ensures SplitFrom(s, c, i) != [] && Join(SplitFrom(s, c, i), c) == s[i..]
    decreases |s| - i
  {
    var j := FindFrom(s, c, i);
    if j < |s| {
      JoinSplitFrom(s, c, j + 1);
      JoinSplitStep(s, c, i, j, SplitFrom(s, c, j + 1));
    }
  }

  /** Joining undoes splitting. */
  lemma JoinSplit(s: string, c: char)
    ensures Split(s, c) != [] && Join(Split(s, c), c) == s
  {
    JoinSplitFrom(s, c, 0);
    assert s[0..] == s;
  }

  /** A string splits into two exactly at its only separator. */
  lemma SplitTwo(s: string, c: char, a: string, b: string)
    ensures Split(s, c) == [a, b] <==> s == a + [c] + b && c !in a && c !in b
  {
    assert Join([a, b], c) == a + [c] + b by {
      assert [a, b][1..] == [b];
    }
    if Split(s, c) == [a, b] {
      JoinSplit(s, c);
      var i, j := SplitParts(s, c, 0);
      i, j := SplitParts(s, c, 1);
    }
    if s == a + [c] + b && c !in a && c !in b {
      SplitJoin([a, b], c);
    }
  }

  lemma {:induction false} JoinSnoc(parts: seq<string>, last: string, c: char)
    requires parts != []
    ensures Join(parts + [last], c) == Join(parts, c) + [c] + last
  {
    var all := parts + [last];
    if |parts| == 1 {
      assert all[1..] == [last];
    } else {
      JoinSnoc(parts[1..], last, c);
      assert all[1..] == parts[1..] + [last];
    }
  }

  lemma {:induction false} JoinContains(parts: seq<string>, c: char, x: char)
    requires c != x && NoneContains(parts, x)
    ensures x !in Join(parts, c)
  {
    if |parts| > 1 {
      JoinContains(parts[1..], c, x);
    }
  }

  // ----- words ------------------------------------------------------------------------------

  /** The leading characters that are not spaces. */
  function Word(s: string): (w: string)
    ensures |w| <= |s| && s[..|w|] == w && NoSpace(w)
    ensures |w| < |s| ==> IsSpace(s[|w|])
  {
    if s == [] || IsSpace(s[0]) then [] else [s[0]] + Word(s[1..])
  }

  /** The words of s: maximal runs without spaces. */
  function Fields(s: string): seq<string>
    decreases |s|
  {
    if s == [] then []
    else if IsSpace(s[0]) then Fields(s[1..])
    else [Word(s)] + Fields(s[|Word(s)|..])
  }

  predicate AreWords(ws: seq<string>) {
    forall i | 0 <= i < |ws| :: ws[i] != [] && NoSpace(ws[i])
  }

  lemma {:induction false} FieldsAreWords(s: string)
    ensures AreWords(Fields(s))
    decreases |s|
  {
    if s != [] {
      FieldsAreWords(if IsSpace(s[0]) then s[1..] else s[|Word(s)|..]);
    }
  }

  lemma {:induction false} WordOf(a: string, b: string)
    requires NoSpace(a) && (b == [] || IsSpace(b[0]))
    ensures Word(a + b) == a
  {
    var w := Word(a + b);
    assert forall k | 0 <= k < |a| :: (a + b)[k] == a[k];
    assert forall k | 0 <= k < |w| :: (a + b)[k] == w[k];
    assert b != [] ==> (a + b)[|a|] == b[0];
  }

  /** A space separates fields. */
  lemma {:induction false} FieldsConcat(a: string, c: char, b: string)
    requires IsSpace(c)
    ensures Fields(a + [c] + b) == Fields(a) + Fields(b)
    decreases |a|
  {
    var s := a + [c] + b;
    if a == [] {
      assert s[1..] == b;
    } else if IsSpace(a[0]) {
      assert s[1..] == a[1..] + [c] + b;
      FieldsConcat(a[1..], c, b);
    } else {
      var w := Word(a);
      assert a == w + a[|w|..] && s == w + (a[|w|..] + [c] + b);
      WordOf(w, a[|w|..] + [c] + b);
      assert s[|w|..] == a[|w|..] + [c] + b;
      FieldsConcat(a[|w|..], c, b);
    }
  }

  /** With FieldsOne and FieldsConcat, this determines the words of every string. */
  lemma {:induction false} FieldsNone(gap: string)
    requires forall i | 0 <= i < |gap| :: IsSpace(gap[i])
    ensures Fields(gap) == []
  {
    if gap != "" {
      FieldsNone(gap[1..]);
    }
  }

  lemma FieldsOne(w: string)
    requires w != [] && NoSpace(w)
    ensures Fields(w) == [w]
  {
    WordOf(w, []);
    assert w + [] == w;
    assert w[|w|..] == [];
  }

  /** Spaces at the ends do not matter. */
  lemma {:induction false} FieldsTrimRight(s: string)
    ensures Fields(TrimRight(s)) == Fields(s)
  {
    if s != [] && IsSpace(s[|s| - 1]) {
      var t := s[..|s| - 1];
      FieldsTrimRight(t);
      assert s == t + [s[|s| - 1]] + [];
      FieldsConcat(t, s[|s| - 1], []);
    }
  }

  lemma {:induction false} FieldsTrimLeft(s: string)
    ensures Fields(TrimLeft(s)) == Fields(s)
  {
    if s != [] && IsSpace(s[0]) {
      FieldsTrimLeft(s[1..]);
    }
  }

  lemma FieldsTrim(s: string)
    ensures Fields(Trim(s)) == Fields(s)
  {
    FieldsTrimRight(TrimLeft(s));
    FieldsTrimLeft(s);
  }

  lemma {:induction false} FieldsJoin(ws: seq<string>)
    requires AreWords(ws)
    ensures Fields(Join(ws, ' ')) == ws
  {
    if |ws| == 1 {
      FieldsOne(ws[0]);
    } else if |ws| > 1 {
      FieldsJoin(ws[1..]);
      FieldsOne(ws[0]);
      FieldsConcat(ws[0], ' ', Join(ws[1..], ' '));
    }
  }

  // ----- tidy strings -----------------------------------------------------------------------

  /** Single blanks between words, and nothing else that is a space. */
  predicate Tidy(s: string) {
    && Trimmed(s)
    && (forall i | 0 <= i < |s| && IsSpace(s[i]) :: s[i] == ' ')
    && forall i, j | 0 <= i < |s| && 0 <= j < |s| && j == i + 1 && IsSpace(s[i]) :: !IsSpace(s[j])
  }

  /** A trimmed piece of a tidy string is tidy. */
  lemma TidyPiece(s: string, a: nat, b: nat)
    requires Tidy(s) && a <= b <= |s| && Trimmed(s[a..b])
    ensures Tidy(s[a..b])
  {
    var t := s[a..b];
    assert forall i | 0 <= i < |t| :: t[i] == s[a + i];
  }

  lemma {:induction false} JoinedIsTidy(ws: seq<string>)
    requires AreWords(ws)
    ensures Tidy(Join(ws, ' '))
    ensures ws != [] ==> Join(ws, ' ') != [] && Join(ws, ' ')[0] == ws[0][0]
  {
    if |ws| > 1 {
      JoinedIsTidy(ws[1..]);
      var w, rest := ws[0], Join(ws[1..], ' ');
      var s := w + [' '] + rest;
      assert s[0] == w[0] && s[|s| - 1] == rest[|rest| - 1];
      assert forall i | 0 <= i < |w| :: s[i] == w[i];
      assert forall i | |w| < i < |s| :: s[i] == rest[i - |w| - 1];
    }
  }

  lemma CutOne(s: string, i: nat)
    requires i < |s|
    ensures s == s[..i] + [s[i]] + s[i + 1..|s|]
  {
  }

  /** A space in a tidy string is a single blank between two tidy pieces. */
  lemma TidyParts(s: string, n: nat)
    requires Tidy(s) && n < |s| && IsSpace(s[n])
    ensures n + 1 < |s| && s == s[..n] + [' '] + s[n + 1..|s|]
    ensures Tidy(s[n + 1..|s|]) && !IsSpace(s[n + 1])
  {
    CutOne(s, n);
    assert n != |s| - 1;
    var next := n + 1;
    assert !IsSpace(s[next]);
    var rest := s[n + 1..|s|];
    assert rest[0] == s[next] && rest[|rest| - 1] == s[|s| - 1];
    TidyPiece(s, n + 1, |s|);
  }

  lemma FieldsParts(w: string, rest: string)
    requires w != [] && NoSpace(w)
    ensures Fields(w + [' '] + rest) == [w] + Fields(rest)
  {
    FieldsOne(w);
    FieldsConcat(w, ' ', rest);
  }

  lemma FieldsNonEmpty(s: string)
    requires s != [] && !IsSpace(s[0])
    ensures Fields(s) != []
  {
  }

  lemma {:induction false} TidyIsJoined(s: string)
    requires Tidy(s)
    ensures Join(Fields(s), ' ') == s
    decreases |s|
  {
    if s != [] {
      var w := Word(s);
      if |w| == |s| {
        assert w == s;
        FieldsOne(s);
      } else {
        TidyParts(s, |w|);
        assert w != [];
        var rest := s[|w| + 1..|s|];
        TidyIsJoined(rest);
        FieldsParts(w, rest);
        FieldsNonEmpty(rest);
        assert ([w] + Fields(rest))[1..] == Fields(rest);
      }
    }
  }

  /** A string survives being cut into words and put together with blanks exactly when it is tidy. */
  lemma TidyIff(s: string)
    ensures Tidy(s) <==> Join(Fields(s), ' ') == s
  {
    if Tidy(s) {
      TidyIsJoined(s);
    }
    FieldsAreWords(s);
    JoinedIsTidy(Fields(s));
  }

  // ----- decimal numbers --------------------------------------------------------------------

  predicate IsDigit(c: char) {
    '0' <= c <= '9'
  }

  predicate AllDigits(s: string) {
    forall i | 0 <= i < |s| :: IsDigit(s[i])
  }

  function Digit(c: char): nat
    requires IsDigit(c)
  {
    c as int - '0' as int
  }

  function Decimal(s: string): nat
    requires AllDigits(s)
  {
    if s == [] then 0 else 10 * Decimal(s[..|s| - 1]) + Digit(s[|s| - 1])
  }

  function Itoa(n: nat): (s: string)
    ensures s != [] && AllDigits(s) && Decimal(s) == n
  {
    var last := [('0' as int + n % 10) as char];
    if n < 10 then
      assert last[..0] == [];
      last
    else
      var s := Itoa(n / 10) + last;
      assert s[..|s| - 1] == Itoa(n / 10);
      s
  }

  /** A decimal number with an optional sign, if it fits 64 bits. */
  function Atoi(s: string): Option<Int> {
    var signed := s != [] && (s[0] == '-' || s[0] == '+');
    var digits := if signed then s[1..] else s;
    if digits == [] || !AllDigits(digits) then None
    else
      var magnitude: int := Decimal(digits);
      var n := if signed && s[0] == '-' then -magnitude else magnitude;
      if -MAX_INT - 1 <= n <= MAX_INT then Some(n) else None
  }

  /** A number is read from its digits, with or without a sign, if it fits. */
  lemma AtoiIff(s: string, n: Int)
    ensures Atoi(s) == Some(n) <==>
              exists digits :: && digits != "" && AllDigits(digits)
                               && ((n == Decimal(digits) && (s == digits || s == ['+'] + digits)) || (n + Decimal(digits) == 0 && s == ['-'] + digits))
  {
    if Atoi(s) == Some(n) {
      var digits := if s[0] == '-' || s[0] == '+' then s[1..] else s;
      assert s == digits || s == [s[0]] + digits;
    }
    if digits :| && digits != "" && AllDigits(digits)
                 && ((n == Decimal(digits) && (s == digits || s == ['+'] + digits)) || (n + Decimal(digits) == 0 && s == ['-'] + digits)) {
      assert IsDigit(digits[0]);
      assert s != digits ==> s[1..] == digits;
    }
  }

  /** Lower case: the capitals of ASCII move up by 32, everything else stays. */
  lemma LowerIs(s: string, i: nat)
    requires i < |s|
    ensures ToLower(s)[i] as int == if 65 <= s[i] as int <= 90 then s[i] as int + 32 else s[i] as int
  {
  }

  /** Reading undoes printing. */
  lemma AtoiItoa(n: Int)
    requires n >= 0
    ensures Atoi(Itoa(n)) == Some(n)
  {
    var s := Itoa(n);
    assert IsDigit(s[0]);
  }

  lemma DigitsNoSpace(s: string)
    requires AllDigits(s)
    ensures NoSpace(s)
  {
    assert forall i | 0 <= i < |s| :: IsDigit(s[i]);
  }
}
