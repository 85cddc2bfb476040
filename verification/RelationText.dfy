/** The text of a relation between two classes: source-kind-target, perhaps with a field name behind a colon. */
module RelationText {
  import opened Options
  import opened Texts

  datatype Kind = O2M | M2O | O2O | M2M

  /** Class names in lower case; an empty `custom` is no name. */
  datatype Relation = Relation(source: string, kind: Kind, target: string, custom: string)

  function KindText(kind: Kind): string {
    match kind
    case O2M => "o2m"
    case M2O => "m2o"
    case O2O => "o2o"
    case M2M => "m2m"
  }

  function KindOf(text: string): Option<Kind> {
    if text == "o2m" then Some(O2M)
    else if text == "m2o" then Some(M2O)
    else if text == "o2o" then Some(O2O)
    else if text == "m2m" then Some(M2M)
    else None
  }

  /** None is a text that is skipped: not three parts, or an unknown kind. */
  function ParseRelation(text: string): Option<Relation> {
    var k := UpTo(text, ':');
    var parts := SplitAll(Strip(text[..k]), '-');
    if |parts| != 3 then None
    else
      match KindOf(Lower(parts[1]))
      case None => None
      case Some(kind) =>
        Some(Relation(Lower(parts[0]), kind, Lower(parts[2]), if k < |text| then Strip(text[k + 1..]) else ""))
  }

  /** The relations of a list of texts, in order, without those that are skipped. */
  function Relations(texts: seq<string>): seq<Relation> {
    if texts == [] then []
    else
      var front, last := Relations(texts[..|texts| - 1]), ParseRelation(texts[|texts| - 1]);
      if last.Some? then front + [last.value] else front
  }

  predicate ClassName(s: string) {
    s != "" && Trimmed(s) && '-' !in s && ':' !in s
  }

  lemma KindRead(kind: Kind)
    ensures Lower(KindText(kind)) == KindText(kind) && KindOf(KindText(kind)) == Some(kind)
    ensures '-' !in KindText(kind) && ':' !in KindText(kind)
  {
    var text := KindText(kind);
    assert |Lower(text)| == 3 && Lower(text)[0] == text[0] && Lower(text)[1] == text[1] && Lower(text)[2] == text[2];
  }

  function PartsText(source: string, kind: Kind, target: string): string {
    source + ['-'] + (KindText(kind) + ['-'] + target)
  }

  lemma PartsRead(source: string, kind: Kind, target: string)
    requires ClassName(source) && ClassName(target)
    ensures SplitAll(PartsText(source, kind, target), '-') == [source, KindText(kind), target]
    ensures Trimmed(PartsText(source, kind, target)) && ':' !in PartsText(source, kind, target)
  {
    KindRead(kind);
    SplitFront(source, '-', KindText(kind) + ['-'] + target);
    SplitFront(KindText(kind), '-', target);
    SplitNone(target, '-');
    var s := PartsText(source, kind, target);
    assert s[0] == source[0] && s[|s| - 1] == target[|target| - 1];
  }

  /** A relation is read whatever the case of its class names and the spaces around it and around its name. */
  lemma RelationRead(source: string, kind: Kind, target: string, custom: string,
                     a: string, b: string, c: string, d: string)
    requires ClassName(source) && ClassName(target) && Trimmed(custom)
    requires AllSpace(a) && AllSpace(b) && AllSpace(c) && AllSpace(d)
    ensures ParseRelation((a + PartsText(source, kind, target) + b) + [':'] + (c + custom + d))
         == Some(Relation(Lower(source), kind, Lower(target), custom))
    ensures ParseRelation(a + PartsText(source, kind, target) + b)
         == Some(Relation(Lower(source), kind, Lower(target), ""))
  {
    PartsRead(source, kind, target);
    KindRead(kind);
    StripPadded(a, PartsText(source, kind, target), b);
    StripPadded(c, custom, d);
    var front, name := a + PartsText(source, kind, target) + b, c + custom + d;
    assert ':' !in front;
    UpToNowhere(front, ':');
    UpToAppended(front, ':', name);
    var text := front + [':'] + name;
    assert text[..|front|] == front && text[|front| + 1..] == name;
    assert front[..|front|] == front;
  }

  lemma {:induction false} JoinedPlain(parts: seq<string>)
    requires parts != [] && forall k :: 0 <= k < |parts| ==> ClassName(parts[k])
    ensures Joined(parts, '-') != "" && Trimmed(Joined(parts, '-')) && ':' !in Joined(parts, '-')
  {
    if |parts| > 1 {
      JoinedPlain(parts[1..]);
      var s, rest := Joined(parts, '-'), Joined(parts[1..], '-');
      assert s[0] == parts[0][0] && s[|s| - 1] == rest[|rest| - 1];
    }
  }

  lemma TextRead(front: string, custom: string)
    requires Trimmed(front) && ':' !in front
    ensures var parts := SplitAll(front, '-');
      && (ParseRelation(front + [':'] + custom).Some? <==> |parts| == 3 && KindOf(Lower(parts[1])).Some?)
      && (|parts| == 3 && KindOf(Lower(parts[1])).Some? ==>
            ParseRelation(front + [':'] + custom).value
            == Relation(Lower(parts[0]), KindOf(Lower(parts[1])).value, Lower(parts[2]), Strip(custom)))
  {
    StripPadded("", front, "");
    assert "" + front + "" == front;
    UpToAppended(front, ':', custom);
    var text := front + [':'] + custom;
    assert text[..|front|] == front && UpTo(text, ':') == |front|;
    assert text[|front| + 1..] == custom;
    assert Strip(text[..|front|]) == front;
  }

  /** A text is a relation exactly when it has three parts and the second one is a kind; others are skipped. */
  lemma RelationReadIff(parts: seq<string>, custom: string)
    requires parts != [] && forall k :: 0 <= k < |parts| ==> ClassName(parts[k])
    ensures ParseRelation(Joined(parts, '-') + [':'] + custom).Some? <==>
              |parts| == 3 && Lower(parts[1]) in {"o2m", "m2o", "o2o", "m2m"}
    ensures ParseRelation(Joined(parts, '-') + [':'] + custom).Some? ==>
              var (r, kind) := (ParseRelation(Joined(parts, '-') + [':'] + custom).value, Lower(parts[1]));
              && r.source == Lower(parts[0]) && r.target == Lower(parts[2]) && r.custom == Strip(custom)
              && (kind == "o2m" <==> r.kind == O2M) && (kind == "m2o" <==> r.kind == M2O)
              && (kind == "o2o" <==> r.kind == O2O) && (kind == "m2m" <==> r.kind == M2M)
  {
    JoinedPlain(parts);
    SplitJoined(parts, '-');
    TextRead(Joined(parts, '-'), custom);
  }
}
