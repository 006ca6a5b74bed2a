/**
 * Version strings: parsing, ordering and the update state of the running app
 * (nftopia-mobile-app/lib/versionCheck.ts).
 */
module Versions {
  import opened Common
  import opened Strings

  // ----- Characters and numbers -----

  predicate IsDigit(c: char) {
    '0' <= c <= '9'
  }

  predicate IsLetter(c: char) {
    'a' <= c <= 'z' || 'A' <= c <= 'Z'
  }

  /** Letters and digits are those of ASCII, by their codes. */
  lemma LettersAndDigits(c: char)
    ensures IsLetter(c) <==> 65 <= c as int <= 90 || 97 <= c as int <= 122
    ensures IsDigit(c) <==> 48 <= c as int <= 57
  {
  }

  predicate Digits(s: string) {
    s != "" && forall c :: c in s ==> IsDigit(c)
  }

  function ValueOf(s: string): nat
    requires forall c :: c in s ==> IsDigit(c)
  {
    if s == "" then 0
    else
      assert IsDigit(s[|s| - 1]) by {
        assert s[|s| - 1] in s;
      }
      ValueOf(s[..|s| - 1]) * 10 + (s[|s| - 1] as int - '0' as int)
  }

  function ToDigits(n: nat): (s: string)
    ensures Digits(s) && ValueOf(s) == n
    ensures forall c :: c in s ==> c != '.' && c != '-' && !IsSpace(c)
  {
    var last := [('0' as int + n % 10) as char];
    if n < 10 then
      assert last[..0] == "";
      last
    else
      var s := ToDigits(n / 10) + last;
      assert s[..|s| - 1] == ToDigits(n / 10);
      s
  }

  // ----- Parsing -----

  datatype Prerelease = Prerelease(identifier: string, numeric: Option<nat>)

  datatype Version = Version(major: nat, minor: nat, patch: nat, prerelease: Option<Prerelease>)

  /** The longest run of letters and digits a string begins with. */
  function WordLength(s: string): (n: nat)
    ensures n <= |s|
    ensures forall i :: 0 <= i < n ==> IsLetter(s[i]) || IsDigit(s[i])
    ensures n < |s| ==> !IsLetter(s[n]) && !IsDigit(s[n])
  {
    if s != "" && (IsLetter(s[0]) || IsDigit(s[0])) then 1 + WordLength(s[1..]) else 0
  }

  /** A word beginning with a letter, then nothing, a dot, or a dot and a number. */
  function ParsePrerelease(s: string): Option<Prerelease> {
    if s == "" || !IsLetter(s[0]) then None
    else
      var n := WordLength(s);
      if n == |s| then Some(Prerelease(s, None))
      else if s[n] != '.' then None
      else if n + 1 == |s| then Some(Prerelease(s, None))
      else if Digits(s[n + 1..]) then Some(Prerelease(s[..n], Some(ValueOf(s[n + 1..]))))
      else None
  }

  function Segment(segments: seq<string>, i: nat): nat
    requires forall s :: s in segments ==> Digits(s)
  {
    if i < |segments| then
      assert Digits(segments[i]) by {
        assert segments[i] in segments;
      }
      ValueOf(segments[i])
    else 0
  }

  /** One to four numbers, the fourth ignored, and a prerelease if there is one. */
  function ParseParts(numbers: string, suffix: string): Option<Version> {
    var segments := Split(numbers, '.');
    if |segments| > 4 || exists s :: s in segments && !Digits(s) then None
    else
      var major, minor, patch := Segment(segments, 0), Segment(segments, 1), Segment(segments, 2);
      if suffix == "" then Some(Version(major, minor, patch, None))
      else
        var prerelease := ParsePrerelease(suffix);
        if prerelease.None? then None else Some(Version(major, minor, patch, prerelease))
  }

  /** The text is split at dashes; only the first two parts are read. */
  function Parse(input: string): Option<Version> {
    var raw := Trim(input);
    if raw == "" then None
    else
      var core := if raw[0] in "vV" then raw[1..] else raw;
      var parts := Split(core, '-');
      ParseParts(parts[0], if |parts| > 1 then parts[1] else "")
  }

  // ----- Comparing -----

  function Sign(n: int): int {
    if n < 0 then -1 else if n > 0 then 1 else 0
  }

  /** `<` on texts: the first difference decides, and a prefix comes first. */
  predicate Before(a: string, b: string) {
    if b == "" then false
    else if a == "" then true
    else a[0] < b[0] || (a[0] == b[0] && Before(a[1..], b[1..]))
  }

  /** The integer a text spells; a text beginning with a letter spells none. */
  function ToInteger(s: string): Option<int> {
    if Digits(s) then Some(ValueOf(s)) else None
  }

  function CompareCore(a: Version, b: Version): int {
    if a.major != b.major then Sign(a.major - b.major)
    else if a.minor != b.minor then Sign(a.minor - b.minor)
    else Sign(a.patch - b.patch)
  }

  function NumericOf(p: Prerelease): nat {
    if p.numeric.Some? then p.numeric.value else 0
  }

  function ComparePrerelease(p: Prerelease, q: Prerelease): int {
    if p.identifier != q.identifier then
      var m, n := ToInteger(p.identifier), ToInteger(q.identifier);
      if m.Some? && n.Some? then Sign(m.value - n.value)
      else if Before(p.identifier, q.identifier) then -1
      else if Before(q.identifier, p.identifier) then 1
      else 0
    else Sign(NumericOf(p) - NumericOf(q))
  }

  function CompareParsed(a: Version, b: Version): int {
    if CompareCore(a, b) != 0 then CompareCore(a, b)
    else if a.prerelease.None? && b.prerelease.None? then 0
    else if a.prerelease.None? then 1
    else if b.prerelease.None? then -1
    else ComparePrerelease(a.prerelease.value, b.prerelease.value)
  }

  function Compare(a: string, b: string): int {
    var pa, pb := Parse(a), Parse(b);
    if pa.None? && pb.None? then 0
    else if pa.None? then -1
    else if pb.None? then 1
    else CompareParsed(pa.value, pb.value)
  }

  // ----- The order -----

  lemma {:induction false} BeforeIsStrictOrder(a: string, b: string)
    ensures a == b || Before(a, b) || Before(b, a)
    ensures !(Before(a, b) && Before(b, a)) && !Before(a, a)
    decreases |a|
  {
    if a != "" && b != "" {
      BeforeIsStrictOrder(a[1..], b[1..]);
      assert a == [a[0]] + a[1..] && b == [b[0]] + b[1..];
    } else if a != "" {
      BeforeIsStrictOrder(a[1..], a[1..]);
    }
  }

  lemma {:induction false} BeforeTransitive(a: string, b: string, c: string)
    requires Before(a, b) && Before(b, c)
    ensures Before(a, c)
    decreases |a|
  {
    if a != "" && a[0] == b[0] == c[0] {
      BeforeTransitive(a[1..], b[1..], c[1..]);
    }
  }

  /** Parsed identifiers begin with a letter, so comparing them as numbers never applies. */
  ghost predicate Named(v: Version) {
    v.prerelease.Some? ==> v.prerelease.value.identifier != "" && IsLetter(v.prerelease.value.identifier[0])
  }

  lemma ParsedIsNamed(s: string)
    ensures Parse(s).Some? ==> Named(Parse(s).value)
  {
  }

  lemma NamedIsNoInteger(s: string)
    requires s != "" && IsLetter(s[0])
    ensures ToInteger(s).None?
  {
    assert s[0] in s;
  }

  lemma NamedComparison(p: Prerelease, q: Prerelease)
    requires p.identifier != "" && IsLetter(p.identifier[0]) && q.identifier != "" && IsLetter(q.identifier[0])
    ensures ComparePrerelease(p, q) == (if Before(p.identifier, q.identifier) then -1
                                        else if Before(q.identifier, p.identifier) then 1
                                        else Sign(NumericOf(p) - NumericOf(q)))
  {
    NamedIsNoInteger(p.identifier);
    BeforeIsStrictOrder(p.identifier, q.identifier);
  }

  lemma CompareParsedOrder(a: Version, b: Version, c: Version)
    requires Named(a) && Named(b) && Named(c)
    ensures CompareParsed(a, a) == 0
    ensures CompareParsed(a, b) == -CompareParsed(b, a)
    ensures CompareParsed(a, b) <= 0 && CompareParsed(b, c) <= 0 ==> CompareParsed(a, c) <= 0
  {
    if a.prerelease.Some? && b.prerelease.Some? {
      var p, q := a.prerelease.value, b.prerelease.value;
      NamedComparison(p, q);
      NamedComparison(q, p);
      BeforeIsStrictOrder(p.identifier, q.identifier);
      if c.prerelease.Some? {
        PrereleaseTransitive(p, q, c.prerelease.value);
      }
    }
  }

  lemma PrereleaseTransitive(p: Prerelease, q: Prerelease, r: Prerelease)
    requires forall x :: x in {p, q, r} ==> x.identifier != "" && IsLetter(x.identifier[0])
    ensures ComparePrerelease(p, q) <= 0 && ComparePrerelease(q, r) <= 0 ==> ComparePrerelease(p, r) <= 0
  {
    NamedComparison(p, q);
    NamedComparison(q, r);
    NamedComparison(p, r);
    var a, b, c := p.identifier, q.identifier, r.identifier;
    BeforeIsStrictOrder(a, b);
    BeforeIsStrictOrder(b, c);
    BeforeIsStrictOrder(a, c);
    if Before(a, b) && Before(b, c) {
      BeforeTransitive(a, b, c);
    }
  }

  /** On all strings: reflexive, antisymmetric in sign and transitive, with unparseable strings lowest and equal. */
  lemma TotalPreorder(a: string, b: string, c: string)
    ensures Compare(a, a) == 0
    ensures Compare(a, b) == -Compare(b, a) && Compare(a, b) in {-1, 0, 1}
    ensures Compare(a, b) <= 0 && Compare(b, c) <= 0 ==> Compare(a, c) <= 0
    ensures Parse(a).None? ==> Compare(a, b) <= 0 && (Compare(a, b) == 0 <==> Parse(b).None?)
  {
    ParsedIsNamed(a);
    ParsedIsNamed(b);
    ParsedIsNamed(c);
    if Parse(a).Some? && Parse(b).Some? {
      var c' := if Parse(c).Some? then Parse(c).value else Parse(a).value;
      CompareParsedOrder(Parse(a).value, Parse(b).value, c');
    }
    if Parse(a).Some? {
      CompareParsedOrder(Parse(a).value, Parse(a).value, Parse(a).value);
    }
  }

  // ----- Semantic Versioning 2.0.0, section 11 -----

  datatype Identifier = Numeric(n: nat) | Alphanumeric(text: string)

  function Identifiers(v: Version): seq<Identifier> {
    if v.prerelease.None? then []
    else
      var p := v.prerelease.value;
      [Alphanumeric(p.identifier)] + (if p.numeric.Some? then [Numeric(p.numeric.value)] else [])
  }

  /** Numbers numerically, words by their characters, numbers below words. */
  function CompareIdentifier(x: Identifier, y: Identifier): int {
    match (x, y)
    case (Numeric(m), Numeric(n)) => Sign(m - n)
    case (Numeric(_), Alphanumeric(_)) => -1
    case (Alphanumeric(_), Numeric(_)) => 1
    case (Alphanumeric(a), Alphanumeric(b)) => if a == b then 0 else if Before(a, b) then -1 else 1
  }

  /** Left to right; if all are equal, more identifiers are higher. */
  function CompareIdentifiers(xs: seq<Identifier>, ys: seq<Identifier>): int {
    if xs == [] || ys == [] then Sign(|xs| - |ys|)
    else if CompareIdentifier(xs[0], ys[0]) != 0 then CompareIdentifier(xs[0], ys[0])
    else CompareIdentifiers(xs[1..], ys[1..])
  }

  function Precedence(a: Version, b: Version): int {
    if CompareCore(a, b) != 0 then CompareCore(a, b)
    else if a.prerelease.None? || b.prerelease.None? then
      (if a.prerelease.Some? then -1 else if b.prerelease.Some? then 1 else 0)
    else CompareIdentifiers(Identifiers(a), Identifiers(b))
  }

  /** One of two otherwise equal prereleases is numbered zero and the other not numbered. */
  predicate ZeroAgainstNothing(a: Version, b: Version) {
    && CompareCore(a, b) == 0 && a.prerelease.Some? && b.prerelease.Some?
    && var p, q := a.prerelease.value, b.prerelease.value;
       p.identifier == q.identifier && p.numeric != q.numeric && {p.numeric, q.numeric} == {None, Some(0)}
  }

  /** The order is the standard's precedence except that `x` and `x.0` tie where the standard puts `x` first. */
  lemma PrecedenceExactly(a: Version, b: Version)
    requires Named(a) && Named(b)
    ensures CompareParsed(a, b) == Precedence(a, b) <==> !ZeroAgainstNothing(a, b)
    ensures ZeroAgainstNothing(a, b) ==> CompareParsed(a, b) == 0
  {
    if a.prerelease.Some? && b.prerelease.Some? {
      var p, q := a.prerelease.value, b.prerelease.value;
      var xs, ys := Identifiers(a), Identifiers(b);
      NamedComparison(p, q);
      BeforeIsStrictOrder(p.identifier, q.identifier);
      assert CompareIdentifiers(xs[1..], ys[1..]) ==
             if p.numeric.Some? && q.numeric.Some? then Sign(p.numeric.value - q.numeric.value) else Sign(|xs| - |ys|) by {
        if p.numeric.Some? && q.numeric.Some? {
          assert xs[1..] == [Numeric(p.numeric.value)] && ys[1..] == [Numeric(q.numeric.value)];
          assert xs[1..][1..] == [] && ys[1..][1..] == [];
        }
      }
    }
  }

  // ----- The update state -----

  datatype VersionState = UpToDate | UpdateAvailable | UpdateRequired

  function Severity(s: VersionState): int {
    match s
    case UpToDate => 0
    case UpdateAvailable => 1
    case UpdateRequired => 2
  }

  function Evaluate(current: string, minimum: string, latest: string): VersionState {
    if Parse(current).None? then UpToDate
    else if Parse(minimum).Some? && Compare(current, minimum) < 0 then UpdateRequired
    else if Parse(latest).Some? && Compare(current, latest) < 0 then UpdateAvailable
    else UpToDate
  }

  /**
   * The state in every case. A version or gate that cannot be parsed asks for nothing; below the
   * minimum an update is required; from the minimum on, below the latest version, one is available.
   */
  lemma StateIff(current: string, minimum: string, latest: string)
    ensures var s := Evaluate(current, minimum, latest);
            var parses := Parse(current).Some?;
            && (s.UpdateRequired? <==> parses && Parse(minimum).Some? && Compare(current, minimum) == -1)
            && (s.UpdateAvailable? <==> && parses && Parse(latest).Some? && Compare(current, latest) == -1
                                        && (Parse(minimum).Some? ==> Compare(minimum, current) != 1))
            && (s.UpToDate? <==> parses ==> Compare(minimum, current) != 1 && Compare(latest, current) != 1)
  {
    TotalPreorder(current, minimum, latest);
    TotalPreorder(minimum, current, latest);
    TotalPreorder(latest, current, minimum);
    TotalPreorder(current, latest, minimum);
  }

  /** A newer parseable version is never asked for more. */
  lemma NewerIsNeverWorse(older: string, newer: string, minimum: string, latest: string)
    requires Parse(older).Some? && Compare(older, newer) <= 0
    ensures Severity(Evaluate(newer, minimum, latest)) <= Severity(Evaluate(older, minimum, latest))
  {
    TotalPreorder(older, newer, minimum);
    TotalPreorder(older, newer, latest);
    TotalPreorder(minimum, older, newer);
    TotalPreorder(latest, older, newer);
    TotalPreorder(newer, minimum, older);
    TotalPreorder(newer, latest, older);
  }

  // ----- Reading back what is written -----

  function Render(v: Version): string {
    ToDigits(v.major) + "." + ToDigits(v.minor) + "." + ToDigits(v.patch)
    + (if v.prerelease.None? then "" else "-" + RenderPrerelease(v.prerelease.value))
  }

  function RenderPrerelease(p: Prerelease): string {
    p.identifier + (if p.numeric.Some? then "." + ToDigits(p.numeric.value) else "")
  }

  /** A word that begins with a letter. */
  predicate IsWord(s: string) {
    s != "" && IsLetter(s[0]) && forall c :: c in s ==> IsLetter(c) || IsDigit(c)
  }

  predicate Renderable(v: Version) {
    v.prerelease.Some? ==> IsWord(v.prerelease.value.identifier)
  }

  predicate Blank(s: string) {
    forall c :: c in s ==> IsSpace(c)
  }

  lemma {:induction false} TrimLeftBlank(w: string, s: string)
    requires Blank(w) && s != "" && !IsSpace(s[0])
    ensures TrimLeft(w + s) == s
    decreases |w|
  {
    if w == "" {
      assert w + s == s;
    } else {
      assert (w + s)[1..] == w[1..] + s;
      TrimLeftBlank(w[1..], s);
    }
  }

  lemma {:induction false} TrimRightBlank(s: string, w: string)
    requires Blank(w) && s != "" && !IsSpace(s[|s| - 1])
    ensures TrimRight(s + w) == s
    decreases |w|
  {
    if w == "" {
      assert s + w == s;
    } else {
      assert (s + w)[..|s + w| - 1] == s + w[..|w| - 1];
      TrimRightBlank(s, w[..|w| - 1]);
    }
  }

  lemma WordLengthStops(word: string, rest: string)
    requires forall c :: c in word ==> IsLetter(c) || IsDigit(c)
    requires rest != "" ==> !IsLetter(rest[0]) && !IsDigit(rest[0])
    ensures WordLength(word + rest) == |word|
  {
    assert forall i :: 0 <= i < |word| ==> (word + rest)[i] == word[i] && word[i] in word;
    assert rest != "" ==> (word + rest)[|word|] == rest[0];
  }

  lemma PrereleaseReadsBack(p: Prerelease)
    requires IsWord(p.identifier)
    ensures ParsePrerelease(RenderPrerelease(p)) == Some(p)
  {
    var rest := if p.numeric.Some? then "." + ToDigits(p.numeric.value) else "";
    var s := p.identifier + rest;
    WordLengthStops(p.identifier, rest);
    assert s[..|p.identifier|] == p.identifier;
    if p.numeric.Some? {
      assert s[|p.identifier| + 1..] == ToDigits(p.numeric.value);
    } else {
      assert s == p.identifier;
    }
  }

  lemma PrereleaseShape(p: Prerelease)
    requires IsWord(p.identifier)
    ensures '-' !in RenderPrerelease(p) && RenderPrerelease(p) != ""
    ensures !IsSpace(RenderPrerelease(p)[|RenderPrerelease(p)| - 1])
  {
    var s := RenderPrerelease(p);
    if p.numeric.Some? {
      var digits := ToDigits(p.numeric.value);
      assert s[|s| - 1] == digits[|digits| - 1] && digits[|digits| - 1] in digits;
    } else {
      assert s == p.identifier && s[|s| - 1] in s;
    }
  }

  function RenderCore(v: Version): string {
    ToDigits(v.major) + "." + ToDigits(v.minor) + "." + ToDigits(v.patch)
  }

  lemma CoreSplits(v: Version)
    ensures Split(RenderCore(v), '.') == [ToDigits(v.major), ToDigits(v.minor), ToDigits(v.patch)]
    ensures '-' !in RenderCore(v)
  {
    ThreeSplit(ToDigits(v.major), ToDigits(v.minor), ToDigits(v.patch));
  }

  lemma ThreeSplit(a: string, b: string, c: string)
    requires '.' !in a && '.' !in b && '.' !in c
    ensures Split(a + "." + b + "." + c, '.') == [a, b, c]
  {
    SplitFirst(a, b + "." + c, '.');
    SplitFirst(b, c, '.');
    SplitFirst(c, "", '.');
    assert a + "." + b + "." + c == a + "." + (b + "." + c);
  }

  lemma DashSplits(v: Version)
    requires Renderable(v)
    ensures Split(Render(v), '-') == [RenderCore(v)] + (if v.prerelease.Some? then [RenderPrerelease(v.prerelease.value)] else [])
  {
    CoreSplits(v);
    if v.prerelease.Some? {
      var tail := RenderPrerelease(v.prerelease.value);
      PrereleaseShape(v.prerelease.value);
      SplitFirst(RenderCore(v), tail, '-');
      SplitFirst(tail, "", '-');
      assert Render(v) == RenderCore(v) + "-" + tail;
    } else {
      SplitFirst(RenderCore(v), "", '-');
      assert Render(v) == RenderCore(v);
    }
  }

  lemma RenderEnds(v: Version)
    requires Renderable(v)
    ensures var s := Render(v); IsDigit(s[0]) && !IsSpace(s[|s| - 1])
  {
    var s := Render(v);
    assert s[0] == ToDigits(v.major)[0];
    if v.prerelease.Some? {
      var tail := RenderPrerelease(v.prerelease.value);
      PrereleaseShape(v.prerelease.value);
      assert s[|s| - 1] == tail[|tail| - 1];
    } else {
      assert s[|s| - 1] == ToDigits(v.patch)[|ToDigits(v.patch)| - 1];
    }
  }

  lemma TrimPadded(before: string, text: string, after: string)
    requires Blank(before) && Blank(after) && text != "" && !IsSpace(text[0]) && !IsSpace(text[|text| - 1])
    ensures Trim(before + text + after) == text
  {
    assert before + text + after == before + (text + after);
    TrimLeftBlank(before, text + after);
    TrimRightBlank(text, after);
  }

  lemma PartsReadBack(v: Version)
    requires Renderable(v)
    ensures ParseParts(RenderCore(v), if v.prerelease.Some? then RenderPrerelease(v.prerelease.value) else "") == Some(v)
  {
    CoreSplits(v);
    var segments := Split(RenderCore(v), '.');
    assert Segment(segments, 0) == v.major && Segment(segments, 1) == v.minor && Segment(segments, 2) == v.patch;
    if v.prerelease.Some? {
      PrereleaseReadsBack(v.prerelease.value);
    }
  }

  lemma ParsesRendered(v: Version, input: string, mark: string)
    requires Renderable(v) && mark in {"", "v", "V"} && Trim(input) == mark + Render(v)
    ensures Parse(input) == Some(v)
  {
    var raw := mark + Render(v);
    RenderEnds(v);
    assert (if raw[0] in "vV" then raw[1..] else raw) == Render(v);
    DashSplits(v);
    PartsReadBack(v);
  }

  /** A written version reads back as itself, with or without a leading `v` and surrounding blanks. */
  lemma ReadsBack(v: Version, before: string, mark: string, after: string)
    requires Renderable(v) && Blank(before) && Blank(after) && mark in {"", "v", "V"}
    ensures Parse(before + (mark + Render(v)) + after) == Some(v)
  {
    RenderEnds(v);
    TrimPadded(before, mark + Render(v), after);
    ParsesRendered(v, before + (mark + Render(v)) + after, mark);
  }

  // ----- Which texts are read, and as what -----

  /** What may stand behind the word of a prerelease: nothing, a dot, or a dot and a number. */
  predicate Follows(rest: string) {
    rest == "" || rest == "." || (rest[0] == '.' && Digits(rest[1..]))
  }

  /** A number behind the dot is read as such; a dot alone stays part of the word. */
  lemma PrereleaseReads(word: string, rest: string)
    requires IsWord(word) && Follows(rest)
    ensures ParsePrerelease(word + rest)
         == Some(if |rest| >= 2 then Prerelease(word, Some(ValueOf(rest[1..]))) else Prerelease(word + rest, None))
  {
    var s := word + rest;
    WordLengthStops(word, rest);
    assert s[0] == word[0] && s[..|word|] == word && s[|word|..] == rest;
    if rest != "" {
      assert s[|word|] == rest[0] && s[|word| + 1..] == rest[1..];
    }
  }

  /** Exactly these prereleases are read. */
  lemma PrereleaseReadIff(s: string)
    ensures ParsePrerelease(s).Some? <==> exists k :: 0 <= k <= |s| && IsWord(s[..k]) && Follows(s[k..])
  {
    if ParsePrerelease(s).Some? {
      var n := WordLength(s);
      assert forall c :: c in s[..n] ==> IsLetter(c) || IsDigit(c);
      assert s[..n][0] == s[0];
      assert s[n..] != "" ==> s[n..][0] == s[n] && s[n..][1..] == s[n + 1..];
      assert IsWord(s[..n]) && Follows(s[n..]);
    }
    if k :| 0 <= k <= |s| && IsWord(s[..k]) && Follows(s[k..]) {
      assert s == s[..k] + s[k..];
      PrereleaseReads(s[..k], s[k..]);
    }
  }

  lemma {:induction false} JoinedChars(parts: seq<string>)
    requires parts != [] && forall p :: p in parts ==> Digits(p)
    ensures var s := Join(parts, '.'); s != "" && IsDigit(s[0]) && IsDigit(s[|s| - 1]) && forall c :: c in s ==> c == '.' || IsDigit(c)
    decreases |parts|
  {
    assert parts[0] in parts && parts[0][0] in parts[0] && parts[0][|parts[0]| - 1] in parts[0];
    if |parts| > 1 {
      JoinedChars(parts[1..]);
      var rest := Join(parts[1..], '.');
      assert Join(parts, '.')[|Join(parts, '.')| - 1] == rest[|rest| - 1];
    }
  }

  /** The number at this place, or 0 if the text has fewer. */
  function NumberAt(parts: seq<string>, i: nat): nat
    requires forall p :: p in parts ==> Digits(p)
  {
    if i >= |parts| then 0
    else
      assert Digits(parts[i]) by {
        assert parts[i] in parts;
      }
      ValueOf(parts[i])
  }

  /**
   * One to four numbers between dots are read, with or without a leading `v`: missing ones are 0, and
   * a fourth is ignored. Five or more are refused.
   */
  lemma NumbersRead(parts: seq<string>, mark: string)
    requires parts != [] && (forall p :: p in parts ==> Digits(p)) && mark in {"", "v", "V"}
    ensures Parse(mark + Join(parts, '.'))
         == if |parts| <= 4 then Some(Version(NumberAt(parts, 0), NumberAt(parts, 1), NumberAt(parts, 2), None)) else None
  {
    JoinedChars(parts);
    DashlessRead(Join(parts, '.'), mark);
    PartsRead(parts);
  }

  lemma DashlessRead(text: string, mark: string)
    requires mark in {"", "v", "V"} && text != "" && IsDigit(text[0]) && IsDigit(text[|text| - 1]) && '-' !in text
    ensures Parse(mark + text) == ParseParts(text, "")
  {
    var input := mark + text;
    TrimPadded("", input, "");
    assert "" + input + "" == input;
    assert (if input[0] in "vV" then input[1..] else input) == text;
    SplitFirst(text, "", '-');
  }

  lemma PartsRead(parts: seq<string>)
    requires parts != [] && forall p :: p in parts ==> Digits(p)
    ensures ParseParts(Join(parts, '.'), "")
         == if |parts| <= 4 then Some(Version(NumberAt(parts, 0), NumberAt(parts, 1), NumberAt(parts, 2), None)) else None
  {
    assert forall p :: p in parts ==> '.' !in p;
    SplitJoin(parts, '.');
  }
}
