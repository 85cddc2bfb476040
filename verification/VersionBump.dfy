/** Bumping a three-number version, its PEP 440 order, and storing it as three lines of text. */
module VersionBump {
  import opened Decimal
  import opened Options
  import opened Texts

  datatype Letter = A | B | RC

  datatype Pre = Pre(letter: Letter, number: nat)

  /** `local` is the part after the plus sign, empty if there is none. */
  datatype Version = Version(epoch: nat, major: nat, minor: nat, patch: nat, pre: Option<Pre>, post: Option<nat>,
                             dev: Option<nat>, local: string)

  datatype Bump = Minor | Patch | Dev | Beta

  predicate IsPrerelease(v: Version) {
    v.dev.Some? || v.pre.Some?
  }

  // ---------------------------------------------------------------- the order of PEP 440

  function Cmp(a: int, b: int): int {
    if a < b then -1 else if a > b then 1 else 0
  }

  function Or(first: int, second: int): int {
    if first != 0 then first else second
  }

  /** How Python compares two tuples. */
  function TupleCmp(a: seq<nat>, b: seq<nat>): int {
    if a == [] then (if b == [] then 0 else -1)
    else if b == [] then 1
    else Or(Cmp(a[0], b[0]), TupleCmp(a[1..], b[1..]))
  }

  /** A release without its trailing zeros. */
  function Stripped(release: seq<nat>): seq<nat> {
    if release == [] || release[|release| - 1] != 0 then release else Stripped(release[..|release| - 1])
  }

  function Release(v: Version): seq<nat> {
    [v.major, v.minor, v.patch]
  }

  function Rank(letter: Letter): int {
    match letter case A => 0 case B => 1 case RC => 2
  }

  /** A development release of no pre- or post-release comes before all pre-releases, a final release after them. */
  function PreRank(v: Version): int {
    if v.pre.Some? then Rank(v.pre.value.letter)
    else if v.post.None? && v.dev.Some? then -1
    else 3
  }

  function PreNumber(v: Version): int {
    if v.pre.Some? then v.pre.value.number else 0
  }

  function PostKey(v: Version): int {
    if v.post.Some? then v.post.value else -1
  }

  /** Development releases, by number, come before what they lead to. */
  function DevCmp(v: Version, w: Version): int {
    if v.dev.None? || w.dev.None? then Cmp(if v.dev.None? then 1 else 0, if w.dev.None? then 1 else 0)
    else Cmp(v.dev.value, w.dev.value)
  }

  /**
   * -1, 0 or 1, as PEP 440 ("Summary of permitted suffixes and relative ordering") orders two versions with the
   * same local part.
   */
  function Compare(v: Version, w: Version): int {
    Or(Cmp(v.epoch, w.epoch),
       Or(TupleCmp(Stripped(Release(v)), Stripped(Release(w))), SuffixCmp(v, w)))
  }

  function SuffixCmp(v: Version, w: Version): int {
    Or(Cmp(PreRank(v), PreRank(w)),
       Or(Cmp(PreNumber(v), PreNumber(w)),
          Or(Cmp(PostKey(v), PostKey(w)), DevCmp(v, w))))
  }

  lemma {:induction false} StrippedFront(x: nat, s: seq<nat>)
    ensures Stripped([x] + s) == if Stripped(s) != [] then [x] + Stripped(s) else if x == 0 then [] else [x]
  {
    if s == [] {
      assert [x] + s == [x] && [x][..0] == [];
      assert Stripped([x]) == if x == 0 then Stripped([x][..0]) else [x];
    } else if s[|s| - 1] == 0 {
      StrippedFront(x, s[..|s| - 1]);
      assert ([x] + s)[..|s|] == [x] + s[..|s| - 1];
    }
  }

  /** Dropping trailing zeros does not change the order of releases of the same length. */
  lemma {:induction false} StrippedCmp(a: seq<nat>, b: seq<nat>)
    requires |a| == |b|
    ensures TupleCmp(Stripped(a), Stripped(b)) == TupleCmp(a, b)
  {
    if a != [] {
      var s, t := a[1..], b[1..];
      assert a == [a[0]] + s && b == [b[0]] + t;
      StrippedFront(a[0], s);
      StrippedFront(b[0], t);
      StrippedCmp(s, t);
      assert Stripped(s) != [] ==> ([a[0]] + Stripped(s))[1..] == Stripped(s);
      assert Stripped(t) != [] ==> ([b[0]] + Stripped(t))[1..] == Stripped(t);
      assert Stripped(s) == [] ==> [a[0]][1..] == Stripped(s);
      assert Stripped(t) == [] ==> [b[0]][1..] == Stripped(t);
    }
  }

  lemma FrontCmp(x: nat, s: seq<nat>, y: nat, t: seq<nat>)
    ensures TupleCmp([x] + s, [y] + t) == Or(Cmp(x, y), TupleCmp(s, t))
  {
    assert ([x] + s)[1..] == s && ([y] + t)[1..] == t;
  }

  lemma ReleaseCmp(v: Version, w: Version)
    ensures TupleCmp(Stripped(Release(v)), Stripped(Release(w)))
         == Or(Cmp(v.major, w.major), Or(Cmp(v.minor, w.minor), Cmp(v.patch, w.patch)))
  {
    StrippedCmp(Release(v), Release(w));
    FrontCmp(v.major, [v.minor, v.patch], w.major, [w.minor, w.patch]);
    FrontCmp(v.minor, [v.patch], w.minor, [w.patch]);
    FrontCmp(v.patch, [], w.patch, []);
    assert [v.major] + [v.minor, v.patch] == Release(v) && [w.major] + [w.minor, w.patch] == Release(w);
    assert [v.minor] + [v.patch] == [v.minor, v.patch] && [w.minor] + [w.patch] == [w.minor, w.patch];
    assert [v.patch] + [] == [v.patch] && [w.patch] + [] == [w.patch];
  }

  predicate Older(v: Version, w: Version) {
    Compare(v, w) == -1
  }

  lemma OlderTransitive(u: Version, v: Version, w: Version)
    requires Older(u, v) && Older(v, w)
    ensures Older(u, w)
  {
    ReleaseCmp(u, v);
    ReleaseCmp(v, w);
    ReleaseCmp(u, w);
  }

  predicate Ascend(versions: seq<Version>) {
    forall i :: 0 < i < |versions| ==> Older(versions[i - 1], versions[i])
  }

  /** The stages before a release: development releases, then alphas, betas and candidates, each kind by number. */
  lemma EarlyStages(v: Version, n: nat)
    requires v.pre.None? && v.post.None? && v.dev.None?
    ensures Ascend([v.(dev := Some(n)), v.(dev := Some(n + 1)), v.(pre := Some(Pre(A, n)), dev := Some(n)),
                    v.(pre := Some(Pre(A, n))), v.(pre := Some(Pre(A, n + 1))), v.(pre := Some(Pre(B, n)))])
  {
    SameRelease(v);
  }

  /** Then, a post-release of a beta coming after it, candidates, the release and its post-releases. */
  lemma LateStages(v: Version, n: nat)
    requires v.pre.None? && v.post.None? && v.dev.None?
    ensures Ascend([v.(pre := Some(Pre(B, n))), v.(pre := Some(Pre(B, n)), post := Some(n)),
                    v.(pre := Some(Pre(RC, n))), v, v.(post := Some(n), dev := Some(n)), v.(post := Some(n)), v.(post := Some(n + 1))])
  {
    SameRelease(v);
  }

  /** The next release, with its development releases, comes after all stages of one. */
  lemma ReleasesAscend(v: Version, n: nat)
    ensures Older(v, v.(patch := v.patch + 1, pre := None, post := None, dev := Some(n)))
    ensures Older(v, v.(minor := v.minor + 1, patch := 0, pre := None, post := None, dev := Some(n)))
    ensures Older(v, v.(major := v.major + 1, minor := 0, patch := 0, pre := None, post := None, dev := Some(n)))
    ensures Older(v, v.(epoch := v.epoch + 1, major := 0, minor := 0, patch := 0, pre := None, post := None))
  {
    ReleaseCmp(v, v.(patch := v.patch + 1, pre := None, post := None, dev := Some(n)));
    ReleaseCmp(v, v.(minor := v.minor + 1, patch := 0, pre := None, post := None, dev := Some(n)));
    ReleaseCmp(v, v.(major := v.major + 1, minor := 0, patch := 0, pre := None, post := None, dev := Some(n)));
  }

  lemma SameRelease(v: Version)
    ensures TupleCmp(Stripped(Release(v)), Stripped(Release(v))) == 0
  {
    ReleaseCmp(v, v);
  }

  // ---------------------------------------------------------------- bumping

  function NextMinor(v: Version): Version {
    v.(minor := v.minor + 1, patch := 0)
  }

  function NextPatch(v: Version): Version {
    v.(patch := v.patch + 1)
  }

  function Bumped(v: Version, bump: Bump): Version {
    match bump
    case Minor => (if !IsPrerelease(v) || v.patch != 0 then NextMinor(v) else v).(dev := None, pre := None)
    case Patch => (if !IsPrerelease(v) then NextPatch(v) else v).(dev := None, pre := None)
    case Dev =>
      if v.dev.Some? then v.(dev := Some(v.dev.value + 1)) else NextMinor(v).(dev := Some(0), pre := None)
    case Beta =>
      if v.dev.Some? then v.(dev := None, pre := Some(Pre(B, 0)))
      else if v.pre.Some? && v.pre.value.letter == B then v.(pre := Some(Pre(B, v.pre.value.number + 1)))
      else NextPatch(v).(pre := Some(Pre(B, 0)))
  }

  /** The fields `bump_version` collects before it replaces them all at once; a missing key leaves its field. */
  datatype Changes = Changes(release: Option<(nat, nat, nat)>, pre: Option<Option<Pre>>, dev: Option<Option<nat>>)

  method BumpRelease(release: (nat, nat, nat), bump: Bump) returns (r: (nat, nat, nat))
    ensures bump == Patch ==> r == (release.0, release.1, release.2 + 1)
    ensures bump == Minor ==> r == (release.0, release.1 + 1, 0)
    ensures bump != Patch && bump != Minor ==> r == release
  {
    var (major, minor, patch) := release;
    if bump == Patch {
      patch := patch + 1;
    } else if bump == Minor {
      minor := minor + 1;
      patch := 0;
    }
    r := (major, minor, patch);
  }

  method BumpVersion(v: Version, bump: Bump) returns (r: Version)
    ensures r == Bumped(v, bump)
  {
    var release := (v.major, v.minor, v.patch);
    var change := Changes(None, None, None);
    match bump {
      case Minor =>
        change := change.(dev := Some(None), pre := Some(None));
        if !IsPrerelease(v) || release.2 != 0 {
          var next := BumpRelease(release, Minor);
          change := change.(release := Some(next));
        }
      case Patch =>
        change := change.(dev := Some(None), pre := Some(None));
        if !IsPrerelease(v) {
          var next := BumpRelease(release, Patch);
          change := change.(release := Some(next));
        }
      case Dev =>
        if v.dev.Some? {
          change := change.(dev := Some(Some(v.dev.value + 1)));
        } else {
          change := change.(dev := Some(Some(0)), pre := Some(None));
          var next := BumpRelease(release, Minor);
          change := change.(release := Some(next));
        }
      case Beta =>
        if v.dev.Some? {
          change := change.(dev := Some(None), pre := Some(Some(Pre(B, 0))));
        } else if v.pre.Some? {
          if v.pre.value.letter == A {
            change := change.(pre := Some(Some(Pre(B, 0))));
          }
          if v.pre.value.letter == B {
            change := change.(pre := Some(Some(Pre(B, v.pre.value.number + 1))));
          } else {
            change := change.(pre := Some(Some(Pre(B, 0))));
            var next := BumpRelease(release, Patch);
            change := change.(release := Some(next));
          }
        } else {
          var next := BumpRelease(release, Patch);
          change := change.(release := Some(next), pre := Some(Some(Pre(B, 0))));
        }
    }
    if change.release.Some? {
      release := change.release.value;
    }
    r := Version(v.epoch, release.0, release.1, release.2,
                 if change.pre.Some? then change.pre.value else v.pre,
                 v.post,
                 if change.dev.Some? then change.dev.value else v.dev,
                 v.local);
  }

  /** The one bump that goes back: to the first beta, from a development release of something later. */
  predicate GoesBack(v: Version, bump: Bump) {
    && bump == Beta && v.dev.Some?
    && match v.pre
       case None => v.post.Some?
       case Some(pre) => pre.letter == RC || (pre.letter == B && pre.number > 0)
  }

  /** A bump gives a strictly newer version, unless it is that one, which gives a strictly older one. */
  lemma BumpIsNewerIff(v: Version, bump: Bump)
    ensures Older(v, Bumped(v, bump)) <==> !GoesBack(v, bump)
    ensures Older(Bumped(v, bump), v) <==> GoesBack(v, bump)
    ensures Bumped(v, bump).local == v.local
  {
    ReleaseCmp(v, Bumped(v, bump));
    ReleaseCmp(Bumped(v, bump), v);
  }

  /**
   * What becomes of each part of any version. A final version is one without a pre- and a development part; only
   * one of the second and third number ever changes, and the first never does.
   */
  lemma PartsExactly(v: Version, bump: Bump)
    ensures var r := Bumped(v, bump);
      var final := v.pre.None? && v.dev.None?;
      var beta := v.pre.Some? && v.pre.value.letter == B;
      var minor := (bump == Minor && (final || v.patch > 0)) || (bump == Dev && v.dev.None?);
      var patch := (bump == Patch && final) || (bump == Beta && v.dev.None? && !beta);
      && (r.epoch, r.major, r.post, r.local) == (v.epoch, v.major, v.post, v.local)
      && r.minor == v.minor + (if minor then 1 else 0)
      && r.patch == (if minor then 0 else if patch then v.patch + 1 else v.patch)
      && r.dev == (if bump != Dev then None else if v.dev.Some? then Some(v.dev.value + 1) else Some(0))
      && r.pre == (if bump == Beta then Some(Pre(B, if v.dev.None? && beta then v.pre.value.number + 1 else 0))
                   else if bump == Dev && v.dev.Some? then v.pre
                   else None)
  {
  }

  /** Versions the project uses: no epoch, post or local part, and never a pre- and a development part together. */
  predicate Plain(v: Version) {
    v.epoch == 0 && v.post.None? && v.local == "" && !(v.pre.Some? && v.dev.Some?)
  }

  predicate Final(v: Version) {
    Plain(v) && v.pre.None? && v.dev.None?
  }

  predicate IsBeta(v: Version) {
    Plain(v) && v.dev.None? && v.pre.Some? && v.pre.value.letter == B
  }

  /** This version is newer than v, and no other such version w comes before it. */
  predicate NextBefore(v: Version, r: Version, w: Version) {
    Older(v, r) && (Older(v, w) ==> w == r || Older(r, w))
  }

  /** A patch bump gives the next final version. */
  lemma PatchIsNext(v: Version, w: Version)
    requires Plain(v) && Final(w)
    ensures Final(Bumped(v, Patch)) && NextBefore(v, Bumped(v, Patch), w)
  {
    var r := Bumped(v, Patch);
    ReleaseCmp(v, r);
    ReleaseCmp(v, w);
    ReleaseCmp(r, w);
  }

  /** A minor bump gives the next final version whose third number is 0. */
  lemma MinorIsNext(v: Version, w: Version)
    requires Plain(v) && Final(w) && w.patch == 0
    ensures Final(Bumped(v, Minor)) && Bumped(v, Minor).patch == 0 && NextBefore(v, Bumped(v, Minor), w)
  {
    var r := Bumped(v, Minor);
    ReleaseCmp(v, r);
    ReleaseCmp(v, w);
    ReleaseCmp(r, w);
  }

  ghost predicate IsNextBeta(v: Version, r: Version) {
    IsBeta(r) && forall w :: IsBeta(w) ==> NextBefore(v, r, w)
  }

  lemma BetaBefore(v: Version, w: Version)
    requires Plain(v) && IsBeta(w) && !(v.pre.Some? && v.pre.value.letter == A)
    ensures NextBefore(v, Bumped(v, Beta), w)
  {
    var r := Bumped(v, Beta);
    ReleaseCmp(v, r);
    ReleaseCmp(v, w);
    ReleaseCmp(r, w);
  }

  /** A beta bump gives the next beta, unless it starts from an alpha, whose own beta it passes over. */
  lemma BetaIsNextIff(v: Version)
    requires Plain(v)
    ensures IsNextBeta(v, Bumped(v, Beta)) <==> !(v.pre.Some? && v.pre.value.letter == A)
  {
    if v.pre.Some? && v.pre.value.letter == A {
      var w := v.(pre := Some(Pre(B, 0)));
      ReleaseCmp(v, w);
      ReleaseCmp(Bumped(v, Beta), w);
      assert IsBeta(w) && !NextBefore(v, Bumped(v, Beta), w);
    } else {
      forall w | IsBeta(w) ensures NextBefore(v, Bumped(v, Beta), w) {
        BetaBefore(v, w);
      }
    }
  }

  /** A dev bump counts on, or begins at 0 before the next minor version. */
  lemma DevIsNext(v: Version)
    requires Plain(v)
    ensures var r := Bumped(v, Dev);
      && Plain(r) && r.dev.Some?
      && (v.dev.Some? ==> r == v.(dev := Some(v.dev.value + 1)))
      && (v.dev.None? ==> r.dev == Some(0) && r.pre.None? && (r.major, r.minor, r.patch) == (v.major, v.minor + 1, 0))
  {
  }

  function After(v: Version, bumps: seq<Bump>): Version {
    if bumps == [] then v else Bumped(After(v, bumps[..|bumps| - 1]), bumps[|bumps| - 1])
  }

  lemma {:induction false} StaysPlain(v: Version, bumps: seq<Bump>)
    requires Plain(v)
    ensures Plain(After(v, bumps))
  {
    if bumps != [] {
      StaysPlain(v, bumps[..|bumps| - 1]);
    }
  }

  /** In any run of bumps from a plain version, every later version is newer than every earlier one. */
  lemma {:induction false} RunsIncrease(v: Version, bumps: seq<Bump>, i: nat)
    requires Plain(v) && i < |bumps|
    ensures Older(After(v, bumps[..i]), After(v, bumps))
  {
    var front := bumps[..|bumps| - 1];
    StaysPlain(v, front);
    BumpIsNewerIff(After(v, front), bumps[|bumps| - 1]);
    if i < |front| {
      assert front[..i] == bumps[..i];
      RunsIncrease(v, front, i);
      OlderTransitive(After(v, bumps[..i]), After(v, front), After(v, bumps));
    } else {
      assert front == bumps[..i];
    }
  }

  // ---------------------------------------------------------------- the text of a version

  predicate LocalChar(c: char) {
    IsDigit(c) || 'a' <= c <= 'z' || c == '.'
  }

  predicate LocalPart(s: string) {
    forall i :: 0 <= i < |s| ==> LocalChar(s[i])
  }

  function LocalText(v: Version): string {
    if v.local == "" then "" else "+" + v.local
  }

  function DevText(v: Version): string {
    if v.dev.Some? then ".dev" + (Digits(v.dev.value) + LocalText(v)) else LocalText(v)
  }

  function PostText(v: Version): string {
    if v.post.Some? then ".post" + (Digits(v.post.value) + DevText(v)) else DevText(v)
  }

  function LetterText(letter: Letter): string {
    match letter case A => "a" case B => "b" case RC => "rc"
  }

  function PreText(v: Version): string {
    if v.pre.Some? then LetterText(v.pre.value.letter) + (Digits(v.pre.value.number) + PostText(v)) else PostText(v)
  }

  /** What the third of three pieces split at the first two dots holds. */
  function PatchText(v: Version): string {
    Digits(v.patch) + PreText(v)
  }

  function MajorText(v: Version): string {
    if v.epoch == 0 then Digits(v.major) else Digits(v.epoch) + ("!" + Digits(v.major))
  }

  function Text(v: Version): string {
    MajorText(v) + ("." + (Digits(v.minor) + ("." + PatchText(v))))
  }

  function Span(s: string): (k: nat)
    ensures k <= |s| && AllDigits(s[..k])
  {
    if s == "" || !IsDigit(s[0]) then 0
    else
      assert forall i :: 0 < i < 1 + Span(s[1..]) ==> s[i] == s[1..][..Span(s[1..])][i - 1];
      1 + Span(s[1..])
  }

  /** A number at the front, and what follows it. */
  function Number(s: string): Option<(nat, string)> {
    if Span(s) == 0 then None else Some((Value(s[..Span(s)]), s[Span(s)..]))
  }

  predicate StartsNoDigit(s: string) {
    s == "" || !IsDigit(s[0])
  }

  lemma {:induction false} SpanAppended(a: string, b: string)
    requires AllDigits(a) && StartsNoDigit(b)
    ensures Span(a + b) == |a|
  {
    if a == "" {
      assert a + b == b;
    } else {
      assert (a + b)[1..] == a[1..] + b;
      SpanAppended(a[1..], b);
    }
  }

  lemma NumberRead(n: nat, rest: string)
    requires StartsNoDigit(rest)
    ensures Number(Digits(n) + rest) == Some((n, rest))
  {
    DigitsAreDigits(n);
    ValueOfDigits(n);
    SpanAppended(Digits(n), rest);
    assert (Digits(n) + rest)[..|Digits(n)|] == Digits(n) && (Digits(n) + rest)[|Digits(n)|..] == rest;
  }

  /** What follows this prefix, if it is there. */
  function Past(s: string, prefix: string): Option<string> {
    if prefix <= s then Some(s[|prefix|..]) else None
  }

  lemma Prefixed(prefix: string, rest: string)
    ensures Past(prefix + rest, prefix) == Some(rest)
  {
    assert (prefix + rest)[|prefix|..] == rest;
  }

  lemma NotPrefixed(prefix: string, s: string, i: nat)
    requires i < |prefix| && (i >= |s| || s[i] != prefix[i])
    ensures Past(s, prefix) == None
  {
  }

  /** Reads versions in normal form: `Version(text)` on what `str(version)` writes. */
  function Parse(s: string): Option<Version> {
    match Number(s)
    case None => None
    case Some((n, rest)) =>
      match Past(rest, "!")
      case None => ParseMajor(0, s)
      case Some(body) => ParseMajor(n, body)
  }

  /** A number that has a dot behind it. */
  function Dotted(s: string): Option<(nat, string)> {
    match Number(s)
    case None => None
    case Some((n, rest)) =>
      match Past(rest, ".")
      case None => None
      case Some(next) => Some((n, next))
  }

  function ParseMajor(epoch: nat, s: string): Option<Version> {
    match Dotted(s)
    case None => None
    case Some((major, rest)) =>
      match Dotted(rest)
      case None => None
      case Some((minor, rest2)) =>
        match Number(rest2)
        case None => None
        case Some((patch, rest3)) => ParsePre(Version(epoch, major, minor, patch, None, None, None, ""), rest3)
  }

  function ParseLetter(s: string): Option<(Letter, string)> {
    if Past(s, "a").Some? then Some((A, Past(s, "a").value))
    else if Past(s, "b").Some? then Some((B, Past(s, "b").value))
    else if Past(s, "rc").Some? then Some((RC, Past(s, "rc").value))
    else None
  }

  function ParsePre(v: Version, s: string): Option<Version> {
    match ParseLetter(s)
    case None => ParsePost(v, s)
    case Some((letter, rest)) =>
      match Number(rest)
      case None => None
      case Some((n, rest2)) => ParsePost(v.(pre := Some(Pre(letter, n))), rest2)
  }

  function ParsePost(v: Version, s: string): Option<Version> {
    match Past(s, ".post")
    case None => ParseDev(v, s)
    case Some(rest) =>
      match Number(rest)
      case None => None
      case Some((n, rest2)) => ParseDev(v.(post := Some(n)), rest2)
  }

  function ParseDev(v: Version, s: string): Option<Version> {
    match Past(s, ".dev")
    case None => ParseLocal(v, s)
    case Some(rest) =>
      match Number(rest)
      case None => None
      case Some((n, rest2)) => ParseLocal(v.(dev := Some(n)), rest2)
  }

  function ParseLocal(v: Version, s: string): Option<Version> {
    if s == "" then Some(v)
    else
      match Past(s, "+")
      case None => None
      case Some(local) => if local == "" || !LocalPart(local) then None else Some(v.(local := local))
  }

  lemma LocalRead(v: Version)
    requires LocalPart(v.local)
    ensures ParseLocal(v.(local := ""), LocalText(v)) == Some(v)
    ensures LocalText(v) == "" || LocalText(v)[0] == '+'
  {
    Prefixed("+", v.local);
  }

  /** Empty, a local part, or a development part. */
  predicate NoPost(s: string) {
    s == "" || s[0] == '+' || (|s| > 1 && s[0] == '.' && s[1] == 'd')
  }

  lemma NoPostPast(s: string)
    requires NoPost(s)
    ensures Past(s, ".post") == None && StartsNoDigit(s)
  {
    NotPrefixed(".post", s, if s == "" || s[0] == '+' then 0 else 1);
  }

  lemma DevRead(v: Version)
    requires LocalPart(v.local)
    ensures ParseDev(v.(dev := None, local := ""), DevText(v)) == Some(v)
    ensures NoPost(DevText(v))
  {
    LocalRead(v);
    if v.dev.Some? {
      NumberRead(v.dev.value, LocalText(v));
      Prefixed(".dev", Digits(v.dev.value) + LocalText(v));
    } else {
      NotPrefixed(".dev", LocalText(v), 0);
    }
  }

  lemma PostPart(v: Version, n: nat, rest: string)
    requires StartsNoDigit(rest)
    ensures ParsePost(v, ".post" + (Digits(n) + rest)) == ParseDev(v.(post := Some(n)), rest)
    ensures (".post" + (Digits(n) + rest))[0] == '.'
  {
    NumberRead(n, rest);
    Prefixed(".post", Digits(n) + rest);
  }

  lemma PostRead(v: Version)
    requires LocalPart(v.local)
    ensures ParsePost(v.(post := None, dev := None, local := ""), PostText(v)) == Some(v)
    ensures PostText(v) == "" || PostText(v)[0] == '+' || PostText(v)[0] == '.'
  {
    DevRead(v);
    NoPostPast(DevText(v));
    var bare, rest := v.(post := None, dev := None, local := ""), DevText(v);
    if v.post.Some? {
      PostPart(bare, v.post.value, rest);
      assert bare.(post := v.post) == v.(dev := None, local := "");
    }
  }

  lemma LetterRead(letter: Letter, rest: string)
    ensures ParseLetter(LetterText(letter) + rest) == Some((letter, rest))
  {
    var s := LetterText(letter) + rest;
    Prefixed(LetterText(letter), rest);
    if letter != A {
      NotPrefixed("a", s, 0);
    }
    if letter == RC {
      NotPrefixed("b", s, 0);
    }
  }

  lemma NoLetter(s: string)
    requires s == "" || s[0] == '+' || s[0] == '.'
    ensures ParseLetter(s) == None
  {
    NotPrefixed("a", s, 0);
    NotPrefixed("b", s, 0);
    NotPrefixed("rc", s, 0);
  }

  lemma PrePart(v: Version, pre: Pre, rest: string)
    requires StartsNoDigit(rest)
    ensures ParsePre(v, LetterText(pre.letter) + (Digits(pre.number) + rest)) == ParsePost(v.(pre := Some(pre)), rest)
    ensures StartsNoDigit(LetterText(pre.letter) + (Digits(pre.number) + rest))
  {
    assert (LetterText(pre.letter) + (Digits(pre.number) + rest))[0] == LetterText(pre.letter)[0];
    NumberRead(pre.number, rest);
    LetterRead(pre.letter, Digits(pre.number) + rest);
  }

  lemma PreRead(v: Version)
    requires LocalPart(v.local)
    ensures ParsePre(v.(pre := None, post := None, dev := None, local := ""), PreText(v)) == Some(v)
    ensures StartsNoDigit(PreText(v))
  {
    PostRead(v);
    var bare, rest := v.(pre := None, post := None, dev := None, local := ""), PostText(v);
    if v.pre.Some? {
      PrePart(bare, v.pre.value, rest);
      assert bare.(pre := v.pre) == v.(post := None, dev := None, local := "");
    } else {
      NoLetter(rest);
    }
  }

  lemma DottedRead(n: nat, rest: string)
    ensures Dotted(Digits(n) + ("." + rest)) == Some((n, rest))
    ensures Number(Digits(n) + ("." + rest)) == Some((n, "." + rest))
  {
    NumberRead(n, "." + rest);
    Prefixed(".", rest);
  }

  lemma MajorRead(v: Version)
    requires LocalPart(v.local)
    ensures ParseMajor(v.epoch, Digits(v.major) + ("." + (Digits(v.minor) + ("." + PatchText(v))))) == Some(v)
  {
    PreRead(v);
    NumberRead(v.patch, PreText(v));
    DottedRead(v.minor, PatchText(v));
    DottedRead(v.major, Digits(v.minor) + ("." + PatchText(v)));
  }

  lemma NoEpochPart(n: nat, rest: string)
    ensures Parse(Digits(n) + ("." + rest)) == ParseMajor(0, Digits(n) + ("." + rest))
  {
    DottedRead(n, rest);
    NotPrefixed("!", "." + rest, 0);
  }

  lemma EpochPart(n: nat, rest: string)
    ensures Parse(Digits(n) + ("!" + rest)) == ParseMajor(n, rest)
  {
    NumberRead(n, "!" + rest);
    Prefixed("!", rest);
  }

  lemma Regrouped(a: string, b: string, c: string, d: string)
    ensures (a + (b + c)) + d == a + (b + (c + d))
  {
    assert (b + c) + d == b + (c + d);
    assert (a + (b + c)) + d == a + ((b + c) + d);
  }

  lemma TextParts(v: Version)
    ensures var body := Digits(v.major) + ("." + (Digits(v.minor) + ("." + PatchText(v))));
      Text(v) == if v.epoch == 0 then body else Digits(v.epoch) + ("!" + body)
  {
    Regrouped(Digits(v.epoch), "!", Digits(v.major), "." + (Digits(v.minor) + ("." + PatchText(v))));
  }

  /** Every version is read back from its text. */
  lemma TextRoundTrip(v: Version)
    requires LocalPart(v.local)
    ensures Parse(Text(v)) == Some(v)
  {
    MajorRead(v);
    TextParts(v);
    var minor := Digits(v.minor) + ("." + PatchText(v));
    if v.epoch == 0 {
      NoEpochPart(v.major, minor);
    } else {
      EpochPart(v.epoch, Digits(v.major) + ("." + minor));
    }
  }

  /** The normal form of a final version, and of one that has every part. */
  lemma Spelled(v: Version)
    ensures v.epoch == 0 && v.pre.None? && v.post.None? && v.dev.None? && v.local == "" ==>
      Text(v) == Digits(v.major) + ("." + (Digits(v.minor) + ("." + Digits(v.patch))))
    ensures v.epoch > 0 && v.pre.Some? && v.post.Some? && v.dev.Some? && v.local != "" ==>
      var letter := match v.pre.value.letter case A => "a" case B => "b" case RC => "rc";
      Text(v) == Digits(v.epoch) + ("!" + Digits(v.major)) + ("." + (Digits(v.minor) + ("." + (Digits(v.patch)
                 + (letter + (Digits(v.pre.value.number) + (".post" + (Digits(v.post.value)
                 + (".dev" + (Digits(v.dev.value) + ("+" + v.local)))))))))))
  {
    assert Digits(v.patch) + "" == Digits(v.patch);
  }

  // ---------------------------------------------------------------- the three constants

  /** The right-hand sides of the three constants in the file; that of the patch is quoted. */
  datatype ConstFile = ConstFile(major: string, minor: string, patch: string)

  /** The pieces of a text before and after its first dot. */
  function Split(s: string): (string, string) {
    var k := UpTo(s, '.');
    (s[..k], if k < |s| then s[k + 1..] else "")
  }

  /** `write_version`: the text of the version, split at its first two dots. */
  function Written(v: Version): ConstFile {
    var (major, rest) := Split(Text(v));
    var (minor, patch) := Split(rest);
    ConstFile(major, minor, "'" + patch + "'")
  }

  function Unquoted(s: string): Option<string> {
    if s == "" || s[0] != '\'' then None
    else
      var k := UpTo(s[1..], '\'');
      if k == |s| - 1 then None else Some(s[1..][..k])
  }

  /** `read_version`: the first two must be digits; `None` is the error. */
  function Read(file: ConstFile): Option<Version> {
    if file.major == "" || file.minor == "" || !AllDigits(file.major) || !AllDigits(file.minor) then None
    else
      match Unquoted(file.patch)
      case None => None
      case Some(patch) => Parse(file.major + "." + file.minor + "." + patch)
  }

  lemma SplitDotted(a: string, b: string)
    requires '.' !in a
    ensures Split(a + ("." + b)) == (a, b)
  {
    var s := a + ("." + b);
    assert s == a + ['.'] + b;
    UpToAppended(a, '.', b);
    assert s[..|a|] == a && s[|a| + 1..] == b;
  }

  lemma WrittenPieces(v: Version)
    ensures Written(v) == ConstFile(MajorText(v), Digits(v.minor), "'" + PatchText(v) + "'")
  {
    DigitsAreDigits(v.epoch);
    DigitsAreDigits(v.major);
    DigitsAreDigits(v.minor);
    assert '.' !in MajorText(v) && '.' !in Digits(v.minor);
    SplitDotted(MajorText(v), Digits(v.minor) + ("." + PatchText(v)));
    SplitDotted(Digits(v.minor), PatchText(v));
  }

  lemma NoQuote(v: Version)
    requires LocalPart(v.local)
    ensures '\'' !in PatchText(v)
  {
    DigitsAreDigits(v.patch);
    if v.pre.Some? { DigitsAreDigits(v.pre.value.number); }
    if v.post.Some? { DigitsAreDigits(v.post.value); }
    if v.dev.Some? { DigitsAreDigits(v.dev.value); }
    assert '\'' !in LocalText(v);
    assert '\'' !in DevText(v);
    assert '\'' !in PostText(v);
    assert '\'' !in PreText(v);
  }

  lemma QuotedRead(s: string)
    requires '\'' !in s
    ensures Unquoted("'" + s + "'") == Some(s)
  {
    var quoted := "'" + s + "'";
    assert quoted[1..] == s + ['\''] + "";
    UpToAppended(s, '\'', "");
    assert quoted[1..][..|s|] == s;
  }

  lemma ReadPieces(major: string, minor: string, patch: string)
    requires '\'' !in patch
    ensures Read(ConstFile(major, minor, "'" + patch + "'"))
         == if major == "" || minor == "" || !AllDigits(major) || !AllDigits(minor) then None
            else Parse(major + ("." + (minor + ("." + patch))))
  {
    QuotedRead(patch);
    assert major + "." + minor + "." + patch == major + ("." + (minor + ("." + patch)));
  }

  lemma MajorDigitsIff(v: Version)
    ensures MajorText(v) != "" && (AllDigits(MajorText(v)) <==> v.epoch == 0)
  {
    DigitsAreDigits(v.major);
    DigitsAreDigits(v.epoch);
    if v.epoch != 0 {
      assert MajorText(v)[|Digits(v.epoch)|] == '!';
    }
  }

  /** What was written is read back, if and only if the version has no epoch; otherwise reading is an error. */
  lemma ReadWrittenIff(v: Version)
    requires LocalPart(v.local)
    ensures Read(Written(v)) == if v.epoch == 0 then Some(v) else None
  {
    WrittenPieces(v);
    NoQuote(v);
    ReadPieces(MajorText(v), Digits(v.minor), PatchText(v));
    MajorDigitsIff(v);
    DigitsAreDigits(v.minor);
    TextRoundTrip(v);
  }
}
