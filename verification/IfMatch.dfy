/** The `If-Match` precondition of the update handlers. */
module IfMatch {
  import opened Text

  datatype Verdict = Accepted | Required | Failed

  /** The tag of revision `version` of entity `id`. */
  function Etag(id: string, version: nat): string {
    "\"" + id + ":" + Decimal(version) + "\""
  }

  function StripWeak(tag: string): string {
    match StripPrefix(tag, "W/") case Some(rest) => rest case None => tag
  }

  predicate SomeTagMatches(parts: seq<string>, current: string) {
    exists i :: 0 <= i < |parts| && StripWeak(Trim(parts[i])) == StripWeak(current)
  }

  /** `header` is `None` when there is no header or its value is not visible ASCII. */
  function CheckIfMatch(header: Option<string>, current: string): Verdict {
    match header
    case None => Required
    case Some(val) =>
      if Trim(val) == "*" || SomeTagMatches(Split(val, ','), current) then Accepted else Failed
  }

  // --- what is accepted ------------------------------------------------------

  // A tag as a client sends it in a list: no comma, no surrounding white space.
  predicate PlainTag(tag: string) {
    Tight(tag) && ',' !in tag && tag != ""
  }

  lemma JoinMore(tags: seq<string>)
    requires |tags| > 1
    ensures Join(tags, ", ") == tags[0] + [','] + (" " + Join(tags[1..], ", "))
  {
    var rest := Join(tags[1..], ", ");
    assert tags[0] + ", " + rest == tags[0] + [','] + (" " + rest);
  }

  lemma SplitFirst(a: string, b: string)
    requires ',' !in a
    ensures Split(a + [','] + b, ',') == [a] + Split(b, ',')
  {
    SplitOnceJoined(a, ',', b);
    hide SplitOnce;
  }

  lemma {:induction false} SplitOfJoin(tags: seq<string>)
    requires tags != [] && forall i :: 0 <= i < |tags| ==> PlainTag(tags[i])
    ensures var parts := Split(Join(tags, ", "), ',');
            |parts| == |tags| && parts[0] == tags[0]
            && forall i :: 0 < i < |tags| ==> parts[i] == " " + tags[i]
  {
    hide Tight;
    if |tags| > 1 {
      hide Split, Join;
      SplitOfJoin(tags[1..]);
      JoinMore(tags);
      SplitFirst(tags[0], " " + Join(tags[1..], ", "));
      SplitAfterSpace(Join(tags[1..], ", "));
    }
  }

  lemma SplitAfterSpace(s: string)
    ensures Split(" " + s, ',') == [" " + Split(s, ',')[0]] + Split(s, ',')[1..]
  {
    assert (" " + s)[1..] == s;
  }

  /** A list of tags is accepted exactly when one of them is the current tag up to the weak
    * marker; a lone `*` is accepted for every revision.
    */
  lemma {:induction false} ListAcceptedIff(tags: seq<string>, current: string)
    requires tags != [] && forall i :: 0 <= i < |tags| ==> PlainTag(tags[i])
    ensures CheckIfMatch(Some(Join(tags, ", ")), current) == Accepted
            <==> tags == ["*"] || exists i :: 0 <= i < |tags| && StripWeak(tags[i]) == StripWeak(current)
  {
    hide Trim, Split, Join, StripWeak;
    TrimmedParts(tags);
    JoinedStar(tags);
    var parts := Split(Join(tags, ", "), ',');
    if i :| 0 <= i < |tags| && StripWeak(tags[i]) == StripWeak(current) {
      assert StripWeak(Trim(parts[i])) == StripWeak(current);
    }
    if SomeTagMatches(parts, current) {
      var i :| 0 <= i < |parts| && StripWeak(Trim(parts[i])) == StripWeak(current);
      assert StripWeak(tags[i]) == StripWeak(current);
    }
  }

  lemma TrimmedParts(tags: seq<string>)
    requires tags != [] && forall i :: 0 <= i < |tags| ==> PlainTag(tags[i])
    ensures |Split(Join(tags, ", "), ',')| == |tags|
    ensures forall i :: 0 <= i < |tags| ==> Trim(Split(Join(tags, ", "), ',')[i]) == tags[i]
  {
    hide Trim, Split, Join;
    SplitOfJoin(tags);
    var parts := Split(Join(tags, ", "), ',');
    forall i | 0 <= i < |tags| ensures Trim(parts[i]) == tags[i] {
      if i == 0 { TrimTight(tags[0]); } else { TrimAfterSpace(tags[i]); }
    }
  }

  lemma JoinedStar(tags: seq<string>)
    requires tags != [] && forall i :: 0 <= i < |tags| ==> PlainTag(tags[i])
    ensures Trim(Join(tags, ", ")) == "*" <==> tags == ["*"]
  {
    hide Trim;
    if |tags| == 1 {
      TrimTight(tags[0]);
    } else {
      JoinedHasComma(tags);
      TrimKeeps(Join(tags, ", "), ',');
    }
  }

  lemma JoinedHasComma(tags: seq<string>)
    requires |tags| > 1
    ensures ',' in Join(tags, ", ")
  {
    assert Join(tags, ", ")[|tags[0]|] == ',';
  }

  lemma TrimKeeps(s: string, c: char)
    requires c in s && !IsSpace(c)
    ensures c in Trim(s)
  {
    TrimStartKeeps(s, c);
    TrimEndKeeps(TrimStart(s), c);
  }

  lemma TrimStartKeeps(s: string, c: char)
    requires c in s && !IsSpace(c)
    ensures c in TrimStart(s)
  {
  }

  lemma TrimEndKeeps(s: string, c: char)
    requires c in s && !IsSpace(c)
    ensures c in TrimEnd(s)
  {
    if IsSpace(s[|s| - 1]) {
      assert c in s[..|s| - 1];
    }
  }

  // --- which revision a tag names --------------------------------------------

  // Ids are hyphenated hexadecimal: no colon, comma, quote or white space.
  predicate PlainId(id: string) {
    forall i :: 0 <= i < |id| ==> id[i] != ':' && id[i] != ','
  }

  lemma EtagInjective(id: string, v: nat, id': string, v': nat)
    requires PlainId(id) && PlainId(id') && Etag(id, v) == Etag(id', v')
    ensures id == id' && v == v'
  {
    var t := Etag(id, v);
    assert t == ("\"" + id) + [':'] + (Decimal(v) + "\"") && t == ("\"" + id') + [':'] + (Decimal(v') + "\"");
    SplitOnceJoined("\"" + id, ':', Decimal(v) + "\"");
    SplitOnceJoined("\"" + id', ':', Decimal(v') + "\"");
    assert id == ("\"" + id)[1..] && id' == ("\"" + id')[1..];
    var d, d' := Decimal(v) + "\"", Decimal(v') + "\"";
    assert Decimal(v) == d[..|d| - 1] && Decimal(v') == d'[..|d'| - 1];
    DecimalInjective(v, v');
  }

  lemma EtagIsStrong(id: string, v: nat)
    ensures StripWeak(Etag(id, v)) == Etag(id, v)
    ensures StripWeak("W/" + Etag(id, v)) == Etag(id, v)
  {
    assert Etag(id, v)[0] == '"' && "W/"[0] == 'W';
    assert ("W/" + Etag(id, v))[2..] == Etag(id, v);
  }

  lemma JoinOne(tag: string, separator: string)
    ensures Join([tag], separator) == tag
  {
  }

  lemma SingleTagAcceptedIff(tag: string, current: string)
    requires PlainTag(tag)
    ensures CheckIfMatch(Some(tag), current) == Accepted <==> tag == "*" || StripWeak(tag) == StripWeak(current)
  {
    hide *;
    var tags := [tag];
    assert forall i :: 0 <= i < |tags| ==> PlainTag(tags[i]);
    JoinOne(tag, ", ");
    ListAcceptedIff(tags, current);
    assert tags[0] == tag;
    assert tags == ["*"] <==> tag == "*";
  }

  lemma SingleTagAccepted(tag: string, id: string, v: nat)
    requires PlainTag(tag) && tag != "*" && CheckIfMatch(Some(tag), Etag(id, v)) == Accepted
    ensures StripWeak(tag) == Etag(id, v)
  {
    hide *;
    SingleTagAcceptedIff(tag, Etag(id, v));
    EtagIsStrong(id, v);
  }

  /** Unless it is `*`, a header that names one tag is accepted for one revision at most. */
  lemma {:induction false} SingleTagNamesOneRevision(tag: string, id: string, v: nat, v': nat)
    requires PlainTag(tag) && tag != "*" && PlainId(id)
    requires CheckIfMatch(Some(tag), Etag(id, v)) == Accepted && CheckIfMatch(Some(tag), Etag(id, v')) == Accepted
    ensures v == v'
  {
    SingleTagAccepted(tag, id, v);
    SingleTagAccepted(tag, id, v');
    EtagInjective(id, v, id, v');
  }

  // The strong comparison of section 13.1.1 of RFC 9110: weak tags never match.
  predicate StrongMatch(a: string, b: string) {
    !StartsWith(a, "W/") && !StartsWith(b, "W/") && a == b
  }

  /** The comparison is weak: the weakened form of the current tag is accepted although the
    * strong comparison rejects it.
    */
  lemma {:induction false} WeakFormAccepted(id: string, v: nat)
    requires PlainId(id)
    ensures CheckIfMatch(Some("W/" + Etag(id, v)), Etag(id, v)) == Accepted
    ensures CheckIfMatch(Some(Etag(id, v)), Etag(id, v)) == Accepted
    ensures !StrongMatch("W/" + Etag(id, v), Etag(id, v))
  {
    hide *;
    EtagIsPlain(id, v);
    EtagIsStrong(id, v);
    SingleTagAcceptedIff("W/" + Etag(id, v), Etag(id, v));
    SingleTagAcceptedIff(Etag(id, v), Etag(id, v));
    WeakFormIsWeak(Etag(id, v));
  }

  lemma WeakFormIsWeak(tag: string)
    ensures !StrongMatch("W/" + tag, tag)
  {
    assert ("W/" + tag)[..2] == "W/";
  }

  lemma EtagIsPlain(id: string, v: nat)
    requires PlainId(id)
    ensures PlainTag(Etag(id, v)) && PlainTag("W/" + Etag(id, v))
  {
    EtagHasNoComma(id, v);
    EtagEnds(id, v);
    hide Etag;
    var (t, weak) := (Etag(id, v), "W/" + Etag(id, v));
    assert weak[0] == 'W' && weak[|weak| - 1] == t[|t| - 1];
  }

  lemma EtagEnds(id: string, v: nat)
    ensures var t := Etag(id, v); |t| >= 2 && t[0] == '"' && t[|t| - 1] == '"'
  {
    hide Decimal;
  }

  lemma EtagHasNoComma(id: string, v: nat)
    requires PlainId(id)
    ensures ',' !in Etag(id, v) && ',' !in "W/" + Etag(id, v)
  {
  }

  lemma StripsToIff(tag: string, id: string, v: nat)
    ensures StripWeak(tag) == Etag(id, v) <==> tag == Etag(id, v) || tag == "W/" + Etag(id, v)
    ensures StrongMatch(tag, Etag(id, v)) <==> tag == Etag(id, v)
  {
    EtagIsStrong(id, v);
    assert Etag(id, v)[0] == '"';
    hide Etag;
    if StartsWith(tag, "W/") {
      assert tag == "W/" + tag[2..];
    }
    assert !StartsWith(Etag(id, v), "W/");
  }

  /** On a list of tags other than the lone `*` the handlers' comparison and the strong one agree
    * exactly if the current tag's weak form is not listed, or its strong form is too.
    */
  lemma {:induction false} ComparisonsAgreeIff(tags: seq<string>, id: string, v: nat)
    requires tags != [] && tags != ["*"] && forall i :: 0 <= i < |tags| ==> PlainTag(tags[i])
    ensures var current := Etag(id, v);
            (CheckIfMatch(Some(Join(tags, ", ")), current) == Accepted
             <==> exists i :: 0 <= i < |tags| && StrongMatch(tags[i], current))
            <==> ("W/" + current !in tags || current in tags)
  {
    var current := Etag(id, v);
    hide Etag, StripWeak, StrongMatch, CheckIfMatch, Join, PlainTag;
    ListAcceptedIff(tags, current);
    EtagIsStrong(id, v);
    forall i | 0 <= i < |tags|
      ensures StripWeak(tags[i]) == current <==> tags[i] == current || tags[i] == "W/" + current
      ensures StrongMatch(tags[i], current) <==> tags[i] == current
    {
      StripsToIff(tags[i], id, v);
    }
  }

  // --- every header ----------------------------------------------------------

  // `p` stands in `h` between commas, or between a comma and an end.
  ghost predicate StandsIn(h: string, p: string) {
    exists pre: string, post: string :: Frames(h, pre, p, post)
  }

  predicate Frames(h: string, pre: string, p: string, post: string) {
    && h == pre + p + post
    && (pre == "" || pre[|pre| - 1] == ',') && (post == "" || post[0] == ',')
  }

  ghost predicate Lists(h: string, tag: string) {
    exists w: string, w': string :: Spaces(w) && Spaces(w') && StandsIn(h, w + tag + w')
  }

  lemma {:induction false} PartStands(h: string, p: string)
    requires p in Split(h, ',')
    ensures ',' !in p && StandsIn(h, p)
    decreases |h|
  {
    hide Split, SplitOnce, Frames;
    SplitUnfolds(h);
    var r := SplitOnce(h, ',');
    if r.None? {
      WholeFrames(h);
    } else {
      var (a, b) := r.value;
      if p == a {
        FirstFrames(a, b);
      } else {
        PartStands(b, p);
        var pre: string, post: string :| Frames(b, pre, p, post);
        LaterFrames(a, b, pre, p, post);
      }
    }
  }

  lemma SplitUnfolds(h: string)
    ensures var r := SplitOnce(h, ',');
            && (r.None? ==> Split(h, ',') == [h])
            && (r.Some? ==> Split(h, ',') == [r.value.0] + Split(r.value.1, ','))
  {
    hide SplitOnce;
  }

  lemma WholeFrames(h: string)
    ensures Frames(h, "", h, "")
  {
  }

  lemma FirstFrames(a: string, b: string)
    ensures Frames(a + [','] + b, "", a, [','] + b)
  {
    assert "" + a + ([','] + b) == a + [','] + b;
  }

  lemma LaterFrames(a: string, b: string, pre: string, p: string, post: string)
    requires Frames(b, pre, p, post)
    ensures Frames(a + [','] + b, a + [','] + pre, p, post)
  {
    assert a + [','] + b == (a + [','] + pre) + p + post;
  }

  lemma {:induction false} StandingIsPart(h: string, pre: string, p: string, post: string)
    requires Frames(h, pre, p, post) && ',' !in p
    ensures p in Split(h, ',')
    decreases |h|
  {
    hide Split, SplitOnce;
    SplitUnfolds(h);
    if pre == "" {
      if post == "" {
        assert h == p;
      } else {
        assert h == p + [','] + post[1..];
        SplitOnceJoined(p, ',', post[1..]);
      }
    } else {
      assert h[|pre| - 1] == ',';
      var (a, b) := SplitOnce(h, ',').value;
      FirstPartFits(h, pre, a, b);
      assert b == h[|a| + 1..];
      assert b == pre[|a| + 1..] + p + post;
      StandingIsPart(b, pre[|a| + 1..], p, post);
    }
  }

  lemma FirstPartFits(h: string, pre: string, a: string, b: string)
    requires pre != "" && pre[|pre| - 1] == ',' && pre <= h && h == a + [','] + b && ',' !in a
    ensures |a| < |pre|
  {
    assert forall k :: 0 <= k < |a| ==> h[k] == a[k];
    assert h[|pre| - 1] == pre[|pre| - 1];
  }

  lemma SpacesHaveNoComma(w: string)
    requires Spaces(w)
    ensures ',' !in w
  {
  }

  lemma PartsThatMatch(h: string, current: string, tag: string)
    requires Tight(tag) && ',' !in tag
    ensures (exists i :: 0 <= i < |Split(h, ',')| && Trim(Split(h, ',')[i]) == tag) <==> Lists(h, tag)
  {
    hide Split, Trim, Tight, Spaces, StandsIn;
    var parts := Split(h, ',');
    if i :| 0 <= i < |parts| && Trim(parts[i]) == tag {
      var w, w' := TrimParts(parts[i]);
      PartStands(h, parts[i]);
    }
    if w: string, w': string :| Spaces(w) && Spaces(w') && StandsIn(h, w + tag + w') {
      ListedIsPart(h, w, tag, w');
      var i :| 0 <= i < |parts| && parts[i] == w + tag + w';
      TrimOf(w, tag, w');
    }
  }

  lemma ListedIsPart(h: string, w: string, tag: string, w': string)
    requires Spaces(w) && Spaces(w') && ',' !in tag && StandsIn(h, w + tag + w')
    ensures w + tag + w' in Split(h, ',')
  {
    hide Split, Spaces;
    SpacesHaveNoComma(w);
    SpacesHaveNoComma(w');
    var pre: string, post: string :| Frames(h, pre, w + tag + w', post);
    StandingIsPart(h, pre, w + tag + w', post);
  }

  lemma TrimsToIff(s: string, t: string)
    requires Tight(t)
    ensures Trim(s) == t <==> exists w: string, w': string :: Spaces(w) && Spaces(w') && s == w + t + w'
  {
    hide Trim, Spaces, Tight;
    var w, w' := TrimParts(s);
    if v: string, v': string :| Spaces(v) && Spaces(v') && s == v + t + v' {
      TrimOf(v, t, v');
    }
  }

  /** For every header whatever: it is accepted exactly if it is a star, or lists the current tag or
    * the tag's weak form, each with any white space around it; and only a missing one is required.
    */
  lemma {:induction false} AcceptedExactly(header: Option<string>, id: string, v: nat)
    requires PlainId(id)
    ensures CheckIfMatch(header, Etag(id, v)) == Required <==> header == None
    ensures CheckIfMatch(header, Etag(id, v)) == Accepted
            <==> && header.Some?
                 && ((exists w: string, w': string :: Spaces(w) && Spaces(w') && header.value == w + "*" + w')
                     || Lists(header.value, Etag(id, v)) || Lists(header.value, "W/" + Etag(id, v)))
  {
    if header.Some? {
      hide Trim, Split, Etag, StripWeak, Lists, Spaces, Tight, PlainId, PlainTag;
      var h := header.value;
      var current := Etag(id, v);
      EtagIsPlain(id, v);
      PlainIsTight(current);
      PlainIsTight("W/" + current);
      PartsThatMatch(h, current, current);
      PartsThatMatch(h, current, "W/" + current);
      StarIsTight();
      TrimsToIff(h, "*");
      EtagIsStrong(id, v);
      forall i | 0 <= i < |Split(h, ',')|
        ensures StripWeak(Trim(Split(h, ',')[i])) == current
                <==> Trim(Split(h, ',')[i]) == current || Trim(Split(h, ',')[i]) == "W/" + current
      {
        StripsToIff(Trim(Split(h, ',')[i]), id, v);
      }
    }
  }

  lemma StarIsTight()
    ensures Tight("*")
  {
  }

  lemma PlainIsTight(tag: string)
    requires PlainTag(tag)
    ensures Tight(tag) && ',' !in tag
  {
  }

  /** A tag is quoted, and tells the id and, in decimal, the version. */
  lemma EtagTells(id: string, v: nat)
    requires PlainId(id)
    ensures var t := Etag(id, v);
            && |t| >= 2 && t[0] == '"' && t[|t| - 1] == '"'
            && exists digits :: t[1..|t| - 1] == id + ":" + digits && IsDecimal(digits, v)
  {
    var t := Etag(id, v);
    DecimalDenotes(v);
    assert t[1..|t| - 1] == id + ":" + Decimal(v);
    assert IsDecimal(Decimal(v), v);
  }

  // The digits denote the number, and none of them is a needless zero.
  predicate IsDecimal(digits: string, n: nat) {
    && digits != "" && (forall i :: 0 <= i < |digits| ==> IsDigit(digits[i]))
    && Denotes(digits) == n && (|digits| > 1 ==> digits[0] != '0')
  }
}
