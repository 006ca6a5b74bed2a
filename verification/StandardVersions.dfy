/**
 * The version order against Semantic Versioning 2.0.0 on strings: its grammar (sections 2, 9 and
 * 10), which strings of it the parser reads without loss, and when the comparison agrees with its
 * precedence (section 11) (nftopia-mobile-app/lib/versionCheck.ts).
 */
module StandardVersions {
  import opened Common
  import opened Strings
  import opened Versions

  // ----- The grammar -----

  /** The identifiers of a version string; no prerelease or no build metadata is the empty list. */
  datatype Text = Text(numbers: seq<string>, prerelease: seq<string>, build: seq<string>)

  predicate NumberText(s: string) {
    Digits(s) && (s[0] == '0' ==> |s| == 1)
  }

  predicate IdentifierChar(c: char) {
    IsDigit(c) || IsLetter(c) || c == '-'
  }

  predicate BuildIdentifier(s: string) {
    s != "" && forall c :: c in s ==> IdentifierChar(c)
  }

  /** Numeric identifiers have no leading zeros. */
  predicate PrereleaseIdentifier(s: string) {
    BuildIdentifier(s) && (Digits(s) ==> NumberText(s))
  }

  predicate WellFormed(t: Text) {
    && |t.numbers| == 3
    && (forall s :: s in t.numbers ==> NumberText(s))
    && (forall s :: s in t.prerelease ==> PrereleaseIdentifier(s))
    && (forall s :: s in t.build ==> BuildIdentifier(s))
  }

  function Suffix(mark: string, identifiers: seq<string>): string {
    if identifiers == [] then "" else mark + Join(identifiers, '.')
  }

  function Written(t: Text): string
    requires WellFormed(t)
  {
    Join(t.numbers, '.') + Suffix("-", t.prerelease) + Suffix("+", t.build)
  }

  // ----- Precedence -----

  /** What precedence depends on. */
  datatype Standing = Standing(major: nat, minor: nat, patch: nat, prerelease: seq<Identifier>)

  function ReadIdentifier(s: string): Identifier {
    if Digits(s) then Numeric(ValueOf(s)) else Alphanumeric(s)
  }

  function ReadIdentifiers(identifiers: seq<string>): seq<Identifier> {
    seq(|identifiers|, i requires 0 <= i < |identifiers| => ReadIdentifier(identifiers[i]))
  }

  function StandingOf(t: Text): Standing
    requires WellFormed(t)
  {
    assert forall i :: 0 <= i < 3 ==> t.numbers[i] in t.numbers;
    Standing(ValueOf(t.numbers[0]), ValueOf(t.numbers[1]), ValueOf(t.numbers[2]), ReadIdentifiers(t.prerelease))
  }

  function StandingSeen(v: Version): Standing {
    Standing(v.major, v.minor, v.patch, Identifiers(v))
  }

  function StandardPrecedence(a: Standing, b: Standing): int {
    if a.major != b.major then Sign(a.major - b.major)
    else if a.minor != b.minor then Sign(a.minor - b.minor)
    else if a.patch != b.patch then Sign(a.patch - b.patch)
    else if a.prerelease == [] || b.prerelease == [] then
      (if a.prerelease != [] then -1 else if b.prerelease != [] then 1 else 0)
    else CompareIdentifiers(a.prerelease, b.prerelease)
  }

  /** The parser reads the string as the version it is. */
  predicate ReadWhole(t: Text)
    requires WellFormed(t)
  {
    Parse(Written(t)).Some? && StandingSeen(Parse(Written(t)).value) == StandingOf(t)
  }

  /** No build metadata, and as prerelease nothing, a word beginning with a letter, or such a word and a number. */
  predicate Plain(t: Text) {
    && t.build == []
    && |t.prerelease| <= 2
    && (|t.prerelease| >= 1 ==> IsWord(t.prerelease[0]))
    && (|t.prerelease| == 2 ==> Digits(t.prerelease[1]))
  }

  predicate DashFree(t: Text) {
    forall s :: s in t.prerelease ==> '-' !in s
  }

  // ----- Strings -----

  /** Text before the first separator goes to the first part. */
  lemma {:induction false} SplitHead(a: string, rest: string, sep: char)
    requires sep !in a
    ensures Split(a + rest, sep) == [a + Split(rest, sep)[0]] + Split(rest, sep)[1..]
    decreases |a|
  {
    if a == "" {
      assert a + rest == rest && a + Split(rest, sep)[0] == Split(rest, sep)[0];
    } else {
      assert (a + rest)[1..] == a[1..] + rest;
      SplitHead(a[1..], rest, sep);
      assert [a[0]] + (a[1..] + Split(rest, sep)[0]) == a + Split(rest, sep)[0];
    }
  }

  lemma {:induction false} JoinedChars(parts: seq<string>, sep: char, c: char)
    requires parts != [] && c != sep
    ensures c in Join(parts, sep) <==> exists p :: p in parts && c in p
    decreases |parts|
  {
    if |parts| > 1 {
      JoinedChars(parts[1..], sep, c);
      assert parts == [parts[0]] + parts[1..];
    } else {
      assert parts == [parts[0]];
    }
  }

  /** The numbers spell digits and dots only, beginning and ending with a digit. */
  lemma NumbersText(t: Text)
    requires WellFormed(t)
    ensures var s := Join(t.numbers, '.');
            && s != "" && IsDigit(s[0]) && IsDigit(s[|s| - 1])
            && '-' !in s && '+' !in s
            && Split(s, '.') == t.numbers
  {
    var s := Join(t.numbers, '.');
    var a, b, c := t.numbers[0], t.numbers[1], t.numbers[2];
    assert a in t.numbers && b in t.numbers && c in t.numbers;
    assert t.numbers[1..][1..] == [c] && t.numbers[1..][0] == b;
    assert Join([c], '.') == c && Join(t.numbers[1..], '.') == b + "." + c;
    assert s == a + "." + (b + "." + c);
    assert a[0] in a && c[|c| - 1] in c && s[|s| - 1] == c[|c| - 1];
    forall n | n in t.numbers ensures '.' !in n && '-' !in n && '+' !in n {
    }
    SplitJoin(t.numbers, '.');
    JoinedChars(t.numbers, '.', '-');
    JoinedChars(t.numbers, '.', '+');
  }

  lemma BuildLike(parts: seq<string>)
    requires parts != [] && forall s :: s in parts ==> BuildIdentifier(s)
    ensures var s := Join(parts, '.');
            && s != "" && '+' !in s && !IsSpace(s[|s| - 1])
            && Split(s, '.') == parts
            && ('-' in s <==> exists p :: p in parts && '-' in p)
  {
    var s := Join(parts, '.');
    forall p | p in parts ensures '.' !in p && '+' !in p {
    }
    SplitJoin(parts, '.');
    JoinedChars(parts, '.', '+');
    JoinedChars(parts, '.', '-');
    JoinedLast(parts);
  }

  lemma {:induction false} JoinedLast(parts: seq<string>)
    requires parts != [] && forall s :: s in parts ==> BuildIdentifier(s)
    ensures var s := Join(parts, '.'); s != "" && IdentifierChar(s[|s| - 1])
    decreases |parts|
  {
    if |parts| > 1 {
      assert forall s :: s in parts[1..] ==> s in parts;
      JoinedLast(parts[1..]);
    } else {
      assert parts[0] in parts && parts[0][|parts[0]| - 1] in parts[0];
    }
  }

  /** Nothing is trimmed from a written version, and it has no `v`: the parser sees its parts at dashes. */
  lemma ParsedParts(t: Text)
    requires WellFormed(t)
    ensures var parts := Split(Written(t), '-');
            Parse(Written(t)) == ParseParts(parts[0], if |parts| > 1 then parts[1] else "")
  {
    var s := Written(t);
    NumbersText(t);
    var n := Join(t.numbers, '.');
    assert s[0] == n[0];
    WrittenEnd(t);
    TrimPadded("", s, "");
    assert "" + s + "" == s;
  }

  lemma WrittenEnd(t: Text)
    requires WellFormed(t)
    ensures var s := Written(t); s != "" && !IsSpace(s[|s| - 1])
  {
    NumbersText(t);
    if t.build != [] {
      BuildLike(t.build);
    } else if t.prerelease != [] {
      BuildLike(t.prerelease);
    }
  }

  // ----- What the parser is given -----

  /** Without a prerelease the first dash, if any, is in the build metadata. */
  lemma NoPrereleaseParts(t: Text)
    requires WellFormed(t) && t.prerelease == []
    ensures var parts := Split(Written(t), '-');
            if t.build == [] then parts == [Join(t.numbers, '.')] else '+' in parts[0]
  {
    NumbersText(t);
    var n := Join(t.numbers, '.');
    if t.build == [] {
      assert Written(t) == n;
      SplitFirst(n, "", '-');
    } else {
      var rest := Join(t.build, '.');
      assert Written(t) == (n + "+") + rest;
      SplitHead(n + "+", rest, '-');
      assert (n + "+" + Split(rest, '-')[0])[|n|] == '+';
    }
  }

  /** With one, the first dash begins it, and the parser sees it up to the next dash. */
  lemma PrereleaseParts(t: Text)
    requires WellFormed(t) && t.prerelease != []
    ensures var parts, text := Split(Written(t), '-'), Join(t.prerelease, '.') + Suffix("+", t.build);
            |parts| > 1 && parts[0] == Join(t.numbers, '.') && parts[1] == Split(text, '-')[0]
  {
    NumbersText(t);
    var n, text := Join(t.numbers, '.'), Join(t.prerelease, '.') + Suffix("+", t.build);
    assert Written(t) == n + "-" + text;
    SplitFirst(n, text, '-');
  }

  lemma DashFreePart(t: Text)
    requires WellFormed(t) && t.prerelease != [] && DashFree(t)
    ensures var seen := Split(Join(t.prerelease, '.') + Suffix("+", t.build), '-')[0];
            if t.build == [] then seen == Join(t.prerelease, '.') else '+' in seen
  {
    BuildLike(t.prerelease);
    var p := Join(t.prerelease, '.');
    if t.build == [] {
      assert p + "" == p;
      SplitFirst(p, "", '-');
    } else {
      var rest := Join(t.build, '.');
      assert p + ("+" + rest) == (p + "+") + rest;
      SplitHead(p + "+", rest, '-');
      assert (p + "+" + Split(rest, '-')[0])[|p|] == '+';
    }
  }

  // ----- What the parser makes of it -----

  /** Numbers with a sign in them are refused. */
  lemma PlusInNumbers(numbers: string, suffix: string)
    requires '+' in numbers
    ensures ParseParts(numbers, suffix).None?
  {
    var segments := Split(numbers, '.');
    JoinSplit(numbers, '.');
    JoinedChars(segments, '.', '+');
    var s :| s in segments && '+' in s;
    assert !Digits(s);
  }

  /** A prerelease that is read is made of letters, digits and dots, and so is its identifier. */
  lemma ReadPrereleaseChars(s: string)
    requires ParsePrerelease(s).Some?
    ensures '+' !in s && '-' !in s && '-' !in ParsePrerelease(s).value.identifier
  {
    var n := WordLength(s);
    forall i | 0 <= i < |s| ensures IsLetter(s[i]) || IsDigit(s[i]) || s[i] == '.' {
      if i > n {
        assert s[i] == s[n + 1..][i - n - 1] && s[n + 1..][i - n - 1] in s[n + 1..];
      }
    }
  }

  /** Numbers of the grammar are read as they are. */
  lemma NumbersRead(t: Text, suffix: string)
    requires WellFormed(t)
    ensures var r, standing := ParseParts(Join(t.numbers, '.'), suffix), StandingOf(t);
            && (r.Some? <==> suffix == "" || ParsePrerelease(suffix).Some?)
            && (r.Some? ==>
                  && r.value.major == standing.major && r.value.minor == standing.minor && r.value.patch == standing.patch
                  && r.value.prerelease == (if suffix == "" then None else ParsePrerelease(suffix)))
  {
    NumbersText(t);
    assert forall s :: s in t.numbers ==> NumberText(s);
  }

  predicate WordChars(s: string) {
    s != "" && forall c :: c in s ==> IsLetter(c) || IsDigit(c)
  }

  lemma WordRead(w: string)
    requires WordChars(w)
    ensures ParsePrerelease(w) == if IsLetter(w[0]) then Some(Prerelease(w, None)) else None
  {
    WordLengthStops(w, "");
    assert w + "" == w;
  }

  lemma WordAndRestRead(w: string, rest: string)
    requires WordChars(w) && rest != ""
    ensures ParsePrerelease(w + "." + rest)
         == if IsLetter(w[0]) && Digits(rest) then Some(Prerelease(w, Some(ValueOf(rest)))) else None
  {
    var s := w + "." + rest;
    assert s == w + ("." + rest);
    WordLengthStops(w, "." + rest);
    assert s[|w| + 1..] == rest && s[..|w|] == w && s[|w|] == '.' && s[0] == w[0];
  }

  predicate PlainPrerelease(parts: seq<string>)
    requires parts != []
  {
    |parts| <= 2 && IsWord(parts[0]) && (|parts| == 2 ==> Digits(parts[1]))
  }

  function PlainReading(parts: seq<string>): Prerelease
    requires parts != [] && PlainPrerelease(parts)
  {
    Prerelease(parts[0], if |parts| == 2 then Some(ValueOf(parts[1])) else None)
  }

  /** A prerelease without dashes is read exactly if it is plain, and then as it is. */
  lemma PrereleaseRead(parts: seq<string>)
    requires parts != [] && forall s :: s in parts ==> PrereleaseIdentifier(s) && '-' !in s
    ensures ParsePrerelease(Join(parts, '.')) == if PlainPrerelease(parts) then Some(PlainReading(parts)) else None
  {
    assert parts[0] in parts;
    assert WordChars(parts[0]);
    if |parts| == 1 {
      WordRead(parts[0]);
    } else {
      var more := parts[1..];
      assert more[0] in parts && forall s :: s in more ==> s in parts;
      BuildLike(more);
      WordAndRestRead(parts[0], Join(more, '.'));
      if |more| > 1 {
        DotInRest(more);
      }
    }
  }

  lemma DotInRest(parts: seq<string>)
    requires |parts| > 1
    ensures !Digits(Join(parts, '.'))
  {
    var s := Join(parts, '.');
    assert s[|parts[0]|] == '.';
    assert '.' in s;
  }

  // ----- Which strings are read without loss -----

  /** The parser is given the numbers and the prerelease, and refuses the sign of build metadata. */
  lemma DashFreeParse(t: Text)
    requires WellFormed(t) && DashFree(t)
    ensures Parse(Written(t)) == if t.build == [] then ParseParts(Join(t.numbers, '.'), Suffix("", t.prerelease)) else None
  {
    ParsedParts(t);
    var parts := Split(Written(t), '-');
    if t.prerelease == [] {
      NoPrereleaseParts(t);
      if t.build != [] {
        PlusInNumbers(parts[0], if |parts| > 1 then parts[1] else "");
      }
    } else {
      PrereleaseParts(t);
      DashFreeSuffix(t, parts[1]);
    }
  }

  lemma DashFreeSuffix(t: Text, seen: string)
    requires WellFormed(t) && DashFree(t) && t.prerelease != []
    requires seen == Split(Join(t.prerelease, '.') + Suffix("+", t.build), '-')[0]
    ensures ParseParts(Join(t.numbers, '.'), seen)
         == if t.build == [] then ParseParts(Join(t.numbers, '.'), Suffix("", t.prerelease)) else None
  {
    DashFreePart(t);
    if t.build == [] {
      assert Suffix("", t.prerelease) == seen;
    } else {
      NumbersRead(t, seen);
      if ParsePrerelease(seen).Some? {
        ReadPrereleaseChars(seen);
      }
    }
  }

  lemma PlainStanding(t: Text, v: Version)
    requires WellFormed(t) && Plain(t)
    requires var standing := StandingOf(t); v.major == standing.major && v.minor == standing.minor && v.patch == standing.patch
    requires v.prerelease == if t.prerelease == [] then None else Some(PlainReading(t.prerelease))
    ensures StandingSeen(v) == StandingOf(t)
  {
    if t.prerelease != [] {
      assert t.prerelease[0][0] in t.prerelease[0];
    }
    assert Identifiers(v) == ReadIdentifiers(t.prerelease);
  }

  /** Without dashes in its prerelease a version string is read whole or refused. */
  lemma DashFreeRead(t: Text)
    requires WellFormed(t) && DashFree(t)
    ensures if Plain(t) then ReadWhole(t) else Parse(Written(t)).None?
  {
    DashFreeParse(t);
    if t.build == [] {
      NumbersRead(t, Suffix("", t.prerelease));
      if t.prerelease != [] {
        PrereleaseRead(t.prerelease);
        BuildLike(t.prerelease);
        assert "" + Join(t.prerelease, '.') == Join(t.prerelease, '.');
      }
      if Plain(t) {
        PlainStanding(t, Parse(Written(t)).value);
      }
    }
  }

  /** With a dash in its prerelease it is not read whole: what is read stops before it. */
  lemma DashIsLost(t: Text)
    requires WellFormed(t) && !DashFree(t)
    ensures !ReadWhole(t)
  {
    var i :| 0 <= i < |t.prerelease| && '-' in t.prerelease[i];
    ParsedParts(t);
    PrereleaseParts(t);
    var seen := Split(Written(t), '-')[1];
    NumbersRead(t, seen);
    if ReadWhole(t) {
      var v := Parse(Written(t)).value;
      assert Identifiers(v)[i] == ReadIdentifier(t.prerelease[i]) == Alphanumeric(t.prerelease[i]);
      ReadPrereleaseChars(seen);
      assert false;
    }
  }

  /** The strings of the standard that are read without loss. */
  lemma ReadWholeIff(t: Text)
    requires WellFormed(t)
    ensures ReadWhole(t) <==> Plain(t)
  {
    if DashFree(t) {
      DashFreeRead(t);
    } else {
      DashIsLost(t);
    }
  }

  // ----- When the comparison agrees with the standard -----

  /** Compared as the standard has it. */
  predicate Agrees(t: Text, u: Text)
    requires WellFormed(t) && WellFormed(u)
  {
    Compare(Written(t), Written(u)) == StandardPrecedence(StandingOf(t), StandingOf(u))
  }

  predicate SameNumbers(t: Text, u: Text)
    requires WellFormed(t) && WellFormed(u)
  {
    StandingOf(t).(prerelease := []) == StandingOf(u).(prerelease := [])
  }

  /** The second is the first with the prerelease number zero added. */
  predicate AddsZero(t: Text, u: Text)
    requires WellFormed(t) && WellFormed(u)
  {
    SameNumbers(t, u) && |t.prerelease| == 1 && u.prerelease == [t.prerelease[0], "0"]
  }

  lemma {:induction false} ZeroIsWrittenOnce(s: string)
    requires Digits(s) && (s[0] == '0' ==> |s| == 1)
    ensures ValueOf(s) == 0 <==> s == "0"
    decreases |s|
  {
    var front := s[..|s| - 1];
    assert s[|s| - 1] in s;
    if |s| > 1 {
      assert forall c :: c in front ==> c in s;
      ZeroIsWrittenOnce(front);
    } else {
      assert s == [s[0]];
    }
  }

  lemma SeenPrecedence(v: Version, w: Version)
    ensures Precedence(v, w) == StandardPrecedence(StandingSeen(v), StandingSeen(w))
  {
  }

  lemma ZeroClashOnTexts(t: Text, u: Text, v: Version, w: Version)
    requires WellFormed(t) && WellFormed(u) && Plain(t) && Plain(u)
    requires StandingSeen(v) == StandingOf(t) && StandingSeen(w) == StandingOf(u)
    ensures ZeroAgainstNothing(v, w) <==> AddsZero(t, u) || AddsZero(u, t)
  {
    NumberOf(t, v);
    NumberOf(u, w);
  }

  lemma NumberOf(t: Text, v: Version)
    requires WellFormed(t) && Plain(t) && StandingSeen(v) == StandingOf(t)
    ensures v.prerelease.Some? <==> t.prerelease != []
    ensures v.prerelease.Some? ==>
              var p := v.prerelease.value;
              && p.identifier == t.prerelease[0]
              && (p.numeric.Some? <==> |t.prerelease| == 2)
              && (p.numeric == Some(0) <==> |t.prerelease| == 2 && t.prerelease[1] == "0")
  {
    assert |Identifiers(v)| == |t.prerelease|;
    if t.prerelease != [] {
      assert t.prerelease[0][0] in t.prerelease[0];
      assert Identifiers(v)[0] == ReadIdentifier(t.prerelease[0]);
      if |t.prerelease| == 2 {
        assert t.prerelease[1] in t.prerelease;
        assert Identifiers(v)[1] == ReadIdentifier(t.prerelease[1]);
        ZeroIsWrittenOnce(t.prerelease[1]);
      }
    }
  }

  /** Of two strings read without loss, the comparison is the standard's unless one is the other with `.0` added; those tie. */
  lemma ReadWholeAgreesIff(t: Text, u: Text)
    requires WellFormed(t) && WellFormed(u) && ReadWhole(t) && ReadWhole(u)
    ensures Agrees(t, u) <==> !AddsZero(t, u) && !AddsZero(u, t)
  {
    var v, w := Parse(Written(t)).value, Parse(Written(u)).value;
    ReadWholeIff(t);
    ReadWholeIff(u);
    ParsedIsNamed(Written(t));
    ParsedIsNamed(Written(u));
    PrecedenceExactly(v, w);
    SeenPrecedence(v, w);
    ZeroClashOnTexts(t, u, v, w);
  }

  /**
   * Without dashes in the prereleases, a string that is not read whole is refused: below every
   * string that is read and equal to every other refused one. It agrees exactly where the standard says so too.
   */
  lemma RefusedAgreesIff(t: Text, u: Text)
    requires WellFormed(t) && WellFormed(u) && DashFree(t) && DashFree(u) && !(Plain(t) && Plain(u))
    ensures Agrees(t, u) <==> StandardPrecedence(StandingOf(t), StandingOf(u)) == if Plain(t) then 1 else if Plain(u) then -1 else 0
  {
    DashFreeRead(t);
    DashFreeRead(u);
  }

  // ----- What is lost behind a dash -----

  lemma {:induction false} SplitBeforeSeparator(a: string, rest: string, sep: char)
    ensures Split(a + [sep] + rest, sep)[0] == Split(a, sep)[0]
    decreases |a|
  {
    var whole := a + [sep] + rest;
    if a == "" {
      assert whole[1..] == rest;
    } else {
      assert whole[1..] == a[1..] + [sep] + rest;
      SplitBeforeSeparator(a[1..], rest, sep);
    }
  }

  /** The text with a dash and a tail added to its last prerelease identifier. */
  function WithTail(t: Text, tail: string): Text
    requires t.prerelease != []
  {
    var n := |t.prerelease| - 1;
    t.(prerelease := t.prerelease[..n] + [t.prerelease[n] + "-" + tail])
  }

  lemma {:induction false} JoinTail(parts: seq<string>, more: string)
    requires parts != []
    ensures Join(parts[..|parts| - 1] + [parts[|parts| - 1] + more], '.') == Join(parts, '.') + more
    decreases |parts|
  {
    var n := |parts| - 1;
    var longer := parts[..n] + [parts[n] + more];
    if n > 0 {
      assert longer[1..] == parts[1..][..n - 1] + [parts[1..][n - 1] + more];
      JoinTail(parts[1..], more);
    }
  }

  lemma TailIsWellFormed(t: Text, tail: string)
    requires WellFormed(t) && t.prerelease != [] && BuildIdentifier(tail)
    ensures WellFormed(WithTail(t, tail))
  {
    var n := |t.prerelease| - 1;
    var last := t.prerelease[n] + "-" + tail;
    assert t.prerelease[n] in t.prerelease;
    assert '-' in last by {
      assert last[|t.prerelease[n]|] == '-';
    }
    forall c | c in last ensures IdentifierChar(c) {
    }
    assert PrereleaseIdentifier(last);
  }

  /** The prerelease is read up to its first dash. */
  lemma ReadUpToDash(t: Text)
    requires WellFormed(t) && t.prerelease != [] && t.build == []
    ensures Parse(Written(t)) == ParseParts(Join(t.numbers, '.'), Split(Join(t.prerelease, '.'), '-')[0])
  {
    ParsedParts(t);
    PrereleaseParts(t);
    assert Join(t.prerelease, '.') + "" == Join(t.prerelease, '.');
  }

  lemma TailJoined(t: Text, tail: string)
    requires t.prerelease != []
    ensures Join(WithTail(t, tail).prerelease, '.') == Join(t.prerelease, '.') + "-" + tail
  {
    var last, p := t.prerelease[|t.prerelease| - 1], Join(t.prerelease, '.');
    JoinTail(t.prerelease, "-" + tail);
    assert last + "-" + tail == last + ("-" + tail) && p + "-" + tail == p + ("-" + tail);
  }

  lemma TailIsNotRead(t: Text, tail: string)
    requires WellFormed(t) && t.prerelease != [] && t.build == [] && WellFormed(WithTail(t, tail))
    ensures Parse(Written(WithTail(t, tail))) == Parse(Written(t))
  {
    ReadUpToDash(t);
    ReadUpToDash(WithTail(t, tail));
    TailJoined(t, tail);
    SplitBeforeSeparator(Join(t.prerelease, '.'), tail, '-');
  }

  lemma {:induction false} PrefixBefore(prefix: string, a: string, b: string)
    ensures Before(prefix + a, prefix + b) <==> Before(a, b)
    decreases |prefix|
  {
    if prefix == "" {
      assert prefix + a == a && prefix + b == b;
    } else {
      assert (prefix + a)[1..] == prefix[1..] + a && (prefix + b)[1..] == prefix[1..] + b;
      PrefixBefore(prefix[1..], a, b);
    }
  }

  lemma {:induction false} LastIdentifierDecides(xs: seq<Identifier>, x: Identifier, y: Identifier)
    requires CompareIdentifier(x, y) != 0
    ensures CompareIdentifiers(xs + [x], xs + [y]) == CompareIdentifier(x, y)
    decreases |xs|
  {
    if xs != [] {
      assert (xs + [x])[1..] == xs[1..] + [x] && (xs + [y])[1..] == xs[1..] + [y];
      LastIdentifierDecides(xs[1..], x, y);
    }
  }

  lemma TailStanding(t: Text, tail: string)
    requires WellFormed(t) && t.prerelease != [] && WellFormed(WithTail(t, tail))
    ensures var n := |t.prerelease| - 1;
            StandingOf(WithTail(t, tail))
            == StandingOf(t).(prerelease := ReadIdentifiers(t.prerelease[..n]) + [Alphanumeric(t.prerelease[n] + "-" + tail)])
  {
    var n := |t.prerelease| - 1;
    var last := t.prerelease[n] + "-" + tail;
    assert last[|t.prerelease[n]|] == '-' && '-' in last;
    assert ReadIdentifiers(WithTail(t, tail).prerelease) == ReadIdentifiers(t.prerelease[..n]) + [Alphanumeric(last)];
  }

  /**
   * Whatever version with a prerelease: with two different tails behind a dash, both are read as
   * the version without a tail, so they tie, while the standard orders them by the tails.
   */
  lemma DashTailsTie(t: Text, a: string, b: string)
    requires WellFormed(t) && t.prerelease != [] && t.build == []
    requires BuildIdentifier(a) && BuildIdentifier(b) && Before(a, b)
    ensures WellFormed(WithTail(t, a)) && WellFormed(WithTail(t, b))
    ensures Compare(Written(WithTail(t, a)), Written(WithTail(t, b))) == 0
    ensures StandardPrecedence(StandingOf(WithTail(t, a)), StandingOf(WithTail(t, b))) == -1
  {
    TailIsWellFormed(t, a);
    TailIsWellFormed(t, b);
    TailIsNotRead(t, a);
    TailIsNotRead(t, b);
    TotalPreorder(Written(t), Written(t), Written(t));
    TailStanding(t, a);
    TailStanding(t, b);
    var n := |t.prerelease| - 1;
    var last := t.prerelease[n] + "-";
    PrefixBefore(last, a, b);
    BeforeIsStrictOrder(last + a, last + b);
    LastIdentifierDecides(ReadIdentifiers(t.prerelease[..n]), Alphanumeric(last + a), Alphanumeric(last + b));
  }
}
