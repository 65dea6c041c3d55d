/** Topic filters: the checks of util_mosq.c, the tokeniser of mosquitto.c and the
    character scanner that decides whether a topic matches a subscription.

    The reference is section 4.7 of MQTT 3.1.1: a topic and a filter are split into levels
    at '/', and compared level by level. */
module Topics {

  /** A C string: the terminating NUL is not part of it, and no other NUL occurs. */
  type CString = s: string | '\0' !in s witness ""

  const MAX_LENGTH := 65535

  /** The return codes these functions use. */
  datatype Code = Success | Inval

  // ---------------------------------------------------------------- Levels

  /** The levels of a topic or filter: the pieces between '/' characters. */
  function Levels(s: string): (levels: seq<string>)
    ensures |levels| >= 1
  {
    if s == "" then [""]
    else
      var rest := Levels(s[1..]);
      if s[0] == '/' then [""] + rest else [[s[0]] + rest[0]] + rest[1..]
  }

  function Join(levels: seq<string>): string
    requires levels != []
  {
    if |levels| == 1 then levels[0] else levels[0] + "/" + Join(levels[1..])
  }

  function Separators(s: string): nat {
    if s == "" then 0 else (if s[0] == '/' then 1 else 0) + Separators(s[1..])
  }

  predicate Plain(level: string) {
    '+' !in level && '#' !in level
  }

  /** Splitting loses nothing: there is one level more than there are separators, no level
      holds a separator, and joining gives the string back. */
  lemma {:induction false} LevelsJoin(s: string)
    ensures |Levels(s)| == Separators(s) + 1
    ensures forall k :: 0 <= k < |Levels(s)| ==> '/' !in Levels(s)[k]
    ensures Join(Levels(s)) == s
  {
    if s == "" {
    } else {
      LevelsJoin(s[1..]);
      assert s == [s[0]] + s[1..];
      var rest := Levels(s[1..]);
      if s[0] == '/' {
        assert Levels(s)[1..] == rest;
        assert "" + "/" + s[1..] == s;
      } else {
        assert Levels(s)[1..] == rest[1..];
        if |rest| > 1 {
          assert [s[0]] + rest[0] + "/" + Join(rest[1..]) == [s[0]] + (rest[0] + "/" + Join(rest[1..]));
        }
      }
    }
  }

  /** ... and the levels are the only such split. */
  lemma {:induction false} SplitIsUnique(levels: seq<string>)
    requires levels != []
    requires forall k :: 0 <= k < |levels| ==> '/' !in levels[k]
    ensures Levels(Join(levels)) == levels
    decreases |levels|, |levels[0]|
  {
    var s := Join(levels);
    if levels[0] == "" {
      if |levels| > 1 {
        assert s == "/" + Join(levels[1..]);
        assert s[1..] == Join(levels[1..]);
        SplitIsUnique(levels[1..]);
      }
    } else {
      var rest := [levels[0][1..]] + levels[1..];
      assert rest[1..] == levels[1..];
      assert levels[0] == [levels[0][0]] + levels[0][1..];
      assert s == [levels[0][0]] + Join(rest);
      assert s[1..] == Join(rest);
      SplitIsUnique(rest);
    }
  }

  // ---------------------------------------------------------------- The reference

  /** Level-wise matching, section 4.7.1: '#' stands for any number of levels, the parent
      included; '+' stands for one level. */
  predicate LevelsMatch(filter: seq<string>, topic: seq<string>) {
    if filter == [] then topic == []
    else if filter == ["#"] then true
    else
      && topic != []
      && (filter[0] == "+" || filter[0] == topic[0])
      && LevelsMatch(filter[1..], topic[1..])
  }

  predicate LevelWise(filter: string, topic: string) {
    LevelsMatch(Levels(filter), Levels(topic))
  }

  /** Section 4.7 with the rule of 4.7.2: a filter that starts with a wildcard does not
      match a topic that starts with '$'. */
  predicate Matches(filter: string, topic: string)
    requires filter != "" && topic != ""
  {
    && LevelWise(filter, topic)
    && !(topic[0] == '$' && (filter[0] == '+' || filter[0] == '#'))
  }

  /** The two shapes on which the scanner says no although the topic matches. Both need a
      filter `p/#`: either `p` alone matches the topic and its last level is '+', or the
      topic is a match of `p` followed by one empty level. */
  predicate Deviates(filter: string, topic: string) {
    EndsInHash(filter) &&
    (PlusTail(BeforeHash(filter), topic) || EmptyTail(BeforeHash(filter), topic))
  }

  predicate EndsInHash(filter: string) {
    |filter| >= 2 && filter[|filter| - 2..] == "/#"
  }

  function BeforeHash(filter: string): (p: string)
    requires EndsInHash(filter)
    ensures filter == p + "/#"
  {
    filter[..|filter| - 2]
  }

  predicate PlusTail(p: string, topic: string) {
    LevelWise(p, topic) && LastLevel(p) == "+"
  }

  predicate EmptyTail(p: string, topic: string) {
    topic != "" && topic[|topic| - 1] == '/' && LevelWise(p, topic[..|topic| - 1])
  }

  function LastLevel(s: string): string {
    Levels(s)[|Levels(s)| - 1]
  }

  /** A filter is well formed when a level holding '+' is just "+", and a level holding '#'
      is just "#" and comes last. */
  predicate WellFormed(levels: seq<string>) {
    forall k :: 0 <= k < |levels| ==>
                  || Plain(levels[k])
                  || levels[k] == "+"
                  || (levels[k] == "#" && k == |levels| - 1)
  }

  predicate AcceptedFilter(s: string) {
    |s| <= 65535 && WellFormed(Levels(s))
  }

  predicate AcceptedTopic(s: string) {
    |s| <= 65535 && Plain(s)
  }

  // ---------------------------------------------------------------- The checks

  predicate Boundary(c: char) {
    c == '\0' || c == '/'
  }

  /** What the check asks of the characters of `s` when `prev` is the one before. */
  predicate CharsOk(prev: char, s: string)
    decreases |s|
  {
    s == "" ||
    (&& (s[0] == '+' ==> Boundary(prev) && (|s| == 1 || s[1] == '/'))
     && (s[0] == '#' ==> Boundary(prev) && |s| == 1)
     && CharsOk(s[0], s[1..]))
  }

  /** The character test is the level-wise rule. Inside a level the rest of that level must
      be plain; what follows is judged on its own. */
  lemma {:induction false} CharsOkIsWellFormed(prev: char, s: CString)
    ensures Boundary(prev) ==> (CharsOk(prev, s) <==> WellFormed(Levels(s)))
    ensures !Boundary(prev) ==> (CharsOk(prev, s) <==> Plain(Levels(s)[0]) && WellFormed(Levels(s)[1..]))
    decreases |s|
  {
    if s == "" {
    } else {
      var rest := Levels(s[1..]);
      var all := Levels(s);
      CharsOkIsWellFormed(s[0], s[1..]);
      if s[0] == '/' {
        assert all[1..] == rest;
        WellFormedCons("", rest);
      } else {
        assert all[1..] == rest[1..];
        WellFormedCons(all[0], rest[1..]);
        assert all == [all[0]] + rest[1..];
        FirstLevel(s[1..]);
        assert s[0] in all[0] && forall c :: c in all[0] <==> c == s[0] || c in rest[0];
        if s[0] == '+' || s[0] == '#' {
          assert !Plain(all[0]);
          assert all[0] == [s[0]] <==> rest[0] == "";
        }
      }
    }
  }

  lemma WellFormedCons(level: string, rest: seq<string>)
    ensures WellFormed([level] + rest) <==>
              (Plain(level) || level == "+" || (level == "#" && rest == [])) && WellFormed(rest)
  {
    var all := [level] + rest;
    assert all[0] == level;
    assert forall k :: 0 <= k < |rest| ==> all[k + 1] == rest[k];
    if WellFormed(all) {
      forall k | 0 <= k < |rest|
        ensures Plain(rest[k]) || rest[k] == "+" || (rest[k] == "#" && k == |rest| - 1)
      {
        assert all[k + 1] == rest[k];
      }
    }
  }

  /** The first level is empty exactly at the end or before a separator, and a string
      without further levels is its own only level. */
  lemma FirstLevel(s: string)
    ensures Levels(s)[0] == "" <==> s == "" || s[0] == '/'
    ensures |Levels(s)| == 1 ==> Levels(s)[0] == s
    ensures s != "" && s[0] != '/' ==> Levels(s)[0][0] == s[0]
  {
  }

  method SubTopicCheck(str: CString) returns (rc: Code)
    ensures rc == Success <==> AcceptedFilter(str)
  {
    var c := '\0';
    var len := 0;
    CharsOkIsWellFormed(c, str);
    while len < |str|
      invariant 0 <= len <= |str|
      invariant CharsOk('\0', str) == CharsOk(c, str[len..])
    {
      var rest := str[len..];
      if str[len] == '+' {
        if !Boundary(c) || !(len + 1 == |str| || str[len + 1] == '/') {
          return Inval;
        }
      } else if str[len] == '#' {
        if !Boundary(c) || len + 1 != |str| {
          return Inval;
        }
      }
      assert rest[1..] == str[len + 1..];
      c := str[len];
      len := len + 1;
    }
    return if len > MAX_LENGTH then Inval else Success;
  }

  method PubTopicCheck(str: CString) returns (rc: Code)
    ensures rc == Success <==> AcceptedTopic(str)
  {
    var len := 0;
    while len < |str|
      invariant 0 <= len <= |str|
      invariant forall k :: 0 <= k < len ==> str[k] != '+' && str[k] != '#'
    {
      if str[len] == '+' || str[len] == '#' {
        return Inval;
      }
      len := len + 1;
    }
    return if len > MAX_LENGTH then Inval else Success;
  }

  // ---------------------------------------------------------------- The scanner

  /** Where the level that `tpos` stands in ends. */
  function LevelEnd(topic: string, tpos: nat): (next: nat)
    requires tpos <= |topic|
    ensures tpos <= next <= |topic|
    decreases |topic| - tpos
  {
    if tpos == |topic| || topic[tpos] == '/' then tpos else LevelEnd(topic, tpos + 1)
  }

  /** What is left of `t` once a '+' has taken one level. */
  function AfterLevel(t: string): (r: string)
    ensures |r| <= |t| && r == t[|t| - |r|..]
  {
    if t == "" || t[0] == '/' then t else AfterLevel(t[1..])
  }

  lemma {:induction false} LevelEndIsAfterLevel(topic: string, tpos: nat)
    requires tpos <= |topic|
    ensures topic[LevelEnd(topic, tpos)..] == AfterLevel(topic[tpos..])
    decreases |topic| - tpos
  {
    if tpos < |topic| && topic[tpos] != '/' {
      assert topic[tpos..][1..] == topic[tpos + 1..];
      LevelEndIsAfterLevel(topic, tpos + 1);
    }
  }

  /** The verdict of the two cursors standing at `spos` and `tpos`. */
  predicate Scan(sub: string, topic: string, spos: nat, tpos: nat)
    requires spos <= |sub| && tpos <= |topic|
    decreases |sub| - spos
  {
    if spos == |sub| || tpos == |topic| then false
    else if sub[spos] == topic[tpos] then
      || (tpos == |topic| - 1 && spos == |sub| - 3 && sub[spos + 1] == '/' && sub[spos + 2] == '#')
      || (tpos == |topic| - 1 && spos == |sub| - 1)
      || (tpos == |topic| - 1 && spos == |sub| - 2 && sub[spos + 1] == '+')
      || Scan(sub, topic, spos + 1, tpos + 1)
    else if sub[spos] == '+' then
      || (LevelEnd(topic, tpos) == |topic| && spos == |sub| - 1)
      || Scan(sub, topic, spos + 1, LevelEnd(topic, tpos))
    else sub[spos] == '#' && spos == |sub| - 1
  }

  lemma LevelsAfterLevel(t: string)
    ensures var rest := AfterLevel(t);
            && (rest == "" || rest[0] == '/')
            && (rest == "" ==> |Levels(t)| == 1)
            && (rest != "" ==> Levels(t)[1..] == Levels(rest[1..]))
  {
  }

  /** A string is determined by its levels. */
  lemma SameLevels(s: string, t: string)
    requires Levels(s) == Levels(t)
    ensures s == t
  {
    LevelsJoin(s);
    LevelsJoin(t);
  }

  /** Taking an equal, plain character off both strings keeps the level-wise verdict, as long
      as what is left of a level begun in the filter is plain. */
  lemma DropEqual(s: string, t: string)
    requires s != "" && t != "" && s[0] == t[0]
    requires Plain(s[..1])
    requires s[0] == '/' || Plain(Levels(s[1..])[0])
    ensures LevelWise(s, t) <==> LevelWise(s[1..], t[1..])
  {
    var (f, g) := (Levels(s), Levels(t));
    var (f', g') := (Levels(s[1..]), Levels(t[1..]));
    assert s[0] in s[..1];
    if s[0] == '/' {
      assert f[1..] == f' && g[1..] == g';
    } else {
      assert f[1..] == f'[1..] && g[1..] == g'[1..];
      assert f[0] == [s[0]] + f'[0] && g[0] == [s[0]] + g'[0];
      assert f[0] == g[0] <==> f'[0] == g'[0] by {
        assert f[0][1..] == f'[0] && g[0][1..] == g'[0];
      }
      assert f[0] != "+" && f[0] != "#" by { assert f[0][0] == s[0]; }
    }
  }

  /** Dropping the last level of a filter `p/#` leaves the first level of `p` as it was. */
  lemma {:induction false} PrefixFirstLevel(p: string)
    ensures Levels(p + "/#")[0] == Levels(p)[0]
  {
    if p == "" {
      assert p + "/#" == "/#";
    } else {
      assert (p + "/#")[1..] == p[1..] + "/#";
      PrefixFirstLevel(p[1..]);
    }
  }

  lemma HashSuffix(s: string)
    requires |s| > 2
    ensures EndsInHash(s) <==> EndsInHash(s[1..])
    ensures EndsInHash(s) ==> BeforeHash(s) != "" && BeforeHash(s)[1..] == BeforeHash(s[1..])
  {
    assert s[1..][|s[1..]| - 2..] == s[|s| - 2..];
  }

  /** `Deviates` in terms of what stands before the `/#`. */
  lemma DeviatesAs(s: string, p: string, t: string)
    requires s == p + "/#"
    ensures Deviates(s, t) <==> PlusTail(p, t) || EmptyTail(p, t)
  {
    assert s[|s| - 2..] == "/#" && BeforeHash(s) == p;
  }

  lemma TailsDropEqual(p: string, t: string)
    requires p != "" && |t| > 1 && p[0] == t[0]
    requires Plain(p[..1])
    requires p[0] == '/' || Plain(Levels(p[1..])[0])
    ensures PlusTail(p, t) <==> PlusTail(p[1..], t[1..])
    ensures EmptyTail(p, t) <==> EmptyTail(p[1..], t[1..])
  {
    var tm := t[..|t| - 1];
    assert tm[1..] == t[1..][..|t[1..]| - 1];
    DropEqual(p, t);
    DropEqual(p, tm);
    LastLevelDrop(p);
  }

  lemma DeviatesDropEqual(s: string, t: string)
    requires |s| > 1 && |t| > 1 && s[0] == t[0]
    requires Plain(s[..1])
    requires s[0] == '/' || Plain(Levels(s[1..])[0])
    ensures Deviates(s, t) <==> Deviates(s[1..], t[1..])
  {
    if s == "/#" {
      DeviatesAs(s, "", t);
      SingleEmpty(t);
      SingleEmpty(t[..|t| - 1]);
    } else if |s| > 2 {
      HashSuffix(s);
      if EndsInHash(s) {
        var p := BeforeHash(s);
        assert p[0] == s[0] && p[..1] == s[..1];
        PrefixFirstLevel(p[1..]);
        TailsDropEqual(p, t);
        DeviatesAs(s, p, t);
        DeviatesAs(s[1..], p[1..], t[1..]);
      }
    }
  }

  lemma LastLevelDrop(p: string)
    requires p != "" && Plain(p[..1])
    requires p[0] == '/' || Plain(Levels(p[1..])[0])
    ensures LastLevel(p) == "+" <==> LastLevel(p[1..]) == "+"
  {
    assert p[0] in p[..1];
    var (f, f') := (Levels(p), Levels(p[1..]));
    if p[0] == '/' {
      assert f[1..] == f';
    } else {
      assert f[1..] == f'[1..];
      assert f[0][0] == p[0];
    }
  }

  /** The levels of the short filters the case analysis meets. */
  lemma ShortLevels()
    ensures Levels("") == [""] && Levels("+") == ["+"] && Levels("#") == ["#"]
    ensures Levels("/#") == ["", "#"] && Levels("/+") == ["", "+"] && Levels("+/#") == ["+", "#"]
  {
    SplitIsUnique([""]);
    SplitIsUnique(["+"]);
    SplitIsUnique(["#"]);
    assert Join(["#"]) == "#" && Join(["+"]) == "+";
    assert ["", "#"][1..] == ["#"] && ["", "+"][1..] == ["+"] && ["+", "#"][1..] == ["#"];
    SplitIsUnique(["", "#"]);
    SplitIsUnique(["", "+"]);
    SplitIsUnique(["+", "#"]);
  }

  lemma MatchCons(f: string, fs: seq<string>, t: string, ts: seq<string>)
    ensures LevelsMatch([f] + fs, [t] + ts) <==>
              (f == "#" && fs == []) || ((f == "+" || f == t) && LevelsMatch(fs, ts))
  {
    assert ([f] + fs)[1..] == fs && ([t] + ts)[1..] == ts;
    assert [f] + fs == ["#"] <==> f == "#" && fs == [] by {
      if [f] + fs == ["#"] { assert ([f] + fs)[0] == f && |[f] + fs| == 1; }
    }
  }

  lemma PlusLevels(s: string)
    requires |s| > 1 && s[0] == '+' && s[1] == '/'
    ensures Levels(s) == ["+"] + Levels(s[2..])
    ensures Levels(s[1..]) == [""] + Levels(s[2..])
  {
    assert s[1..][1..] == s[2..];
    assert ['+'] + "" == "+";
    assert Levels(s[1..])[1..] == Levels(s[2..]);
  }

  /** A '+' level against one topic level: both sides move to the next separator. */
  lemma DropPlus(s: string, t: string)
    requires |s| > 1 && s[0] == '+' && s[1] == '/'
    requires AfterLevel(t) != ""
    ensures LevelWise(s, t) <==> LevelWise(s[1..], AfterLevel(t))
  {
    var t' := AfterLevel(t);
    LevelsAfterLevel(t);
    PlusLevels(s);
    var (fs, ts) := (Levels(s[2..]), Levels(t'[1..]));
    assert Levels(t) == [Levels(t)[0]] + ts;
    assert Levels(t') == [""] + ts;
    MatchCons("+", fs, Levels(t)[0], ts);
    MatchCons("", fs, "", ts);
  }

  /** A lone '+' level matches the topics of one level. */
  lemma PlusAlone(t: string)
    ensures LevelWise("+", t) <==> |Levels(t)| == 1
  {
    ShortLevels();
    assert Levels(t) == [Levels(t)[0]] + Levels(t)[1..] && ["+"] == ["+"] + [];
    MatchCons("+", [], Levels(t)[0], Levels(t)[1..]);
    assert LevelsMatch([], Levels(t)[1..]) <==> Levels(t)[1..] == [];
  }

  /** At the end of the topic a filter that goes on after '+' matches only as `+/#`. */
  lemma PlusAtEnd(s: string, t: string)
    requires |s| > 1 && s[0] == '+' && s[1] == '/'
    ensures AfterLevel(t) == "" && t != "" && LevelWise(s, t) ==> Deviates(s, t)
  {
    if AfterLevel(t) == "" && t != "" && LevelWise(s, t) {
      LevelsAfterLevel(t);
      PlusHash(s, t);
      ShortLevels();
      PlusAlone(t);
      DeviatesAs(s, "+", t);
    }
  }

  /** What can follow '+' when the topic has one level. */
  lemma AfterPlus(fs: seq<string>, t: string)
    requires LevelsMatch(["+"] + fs, [t]) && fs != []
    ensures fs == ["#"]
  {
    MatchCons("+", fs, t, []);
    assert [t] == [t] + [];
  }

  lemma PlusHash(s: string, t: string)
    requires |s| > 1 && s[0] == '+' && s[1] == '/'
    ensures |Levels(t)| == 1 && LevelWise(s, t) ==> s == "+" + "/#"
  {
    if |Levels(t)| == 1 && LevelWise(s, t) {
      PlusLevels(s);
      assert Levels(t) == [Levels(t)[0]];
      AfterPlus(Levels(s[2..]), Levels(t)[0]);
      OnlyHash(s[2..]);
    }
  }

  lemma OnlyHash(s: string)
    requires Levels(s) == ["#"]
    ensures s == "#"
  {
    ShortLevels();
    SameLevels(s, "#");
  }

  /** The filter `+/#` on a topic of several levels. */
  lemma PlusOnly(t: string)
    requires AfterLevel(t) != ""
    ensures !LevelWise("+", t) && !LevelWise("", AfterLevel(t))
    ensures EmptyTail("+", t) <==> EmptyTail("", AfterLevel(t))
  {
    LevelsAfterLevel(t);
    AfterLevelPrefix(t);
    var tm := t[..|t| - 1];
    LevelsAfterLevel(tm);
    PlusAlone(t);
    PlusAlone(tm);
    SingleEmpty(AfterLevel(t));
    ShortLevels();
    if AfterLevel(tm) != "" {
      SingleEmpty(AfterLevel(tm));
      assert |Levels(tm)| > 1;
    }
  }

  lemma EmptyTailDropPlus(p: string, t: string)
    requires |p| > 1 && p[0] == '+' && p[1] == '/'
    requires AfterLevel(t) != ""
    ensures EmptyTail(p, t) <==> EmptyTail(p[1..], AfterLevel(t))
  {
    var tm := t[..|t| - 1];
    AfterLevelPrefix(t);
    if AfterLevel(tm) != "" {
      DropPlus(p, tm);
    } else {
      LevelsAfterLevel(tm);
      PlusLevels(p);
      ShortLevels();
      var fs := Levels(p[2..]);
      assert Levels(tm) == [Levels(tm)[0]] + [] && [""] + [] == [""];
      MatchCons("+", fs, Levels(tm)[0], []);
      MatchCons("", fs, "", []);
    }
  }

  lemma LastLevelDropPlus(p: string)
    requires |p| > 1 && p[0] == '+' && p[1] == '/'
    ensures LastLevel(p) == LastLevel(p[1..])
  {
    PlusLevels(p);
  }

  lemma TailsDropPlus(p: string, t: string)
    requires p == "+" || (|p| > 1 && p[0] == '+' && p[1] == '/')
    requires AfterLevel(t) != ""
    ensures PlusTail(p, t) || EmptyTail(p, t) <==> PlusTail(p[1..], AfterLevel(t)) || EmptyTail(p[1..], AfterLevel(t))
  {
    if p == "+" {
      PlusOnly(t);
      assert p[1..] == "";
    } else {
      LastLevelDropPlus(p);
      DropPlus(p, t);
      EmptyTailDropPlus(p, t);
    }
  }

  lemma DeviatesDropPlus(s: string, t: string)
    requires |s| > 1 && s[0] == '+' && s[1] == '/'
    requires AfterLevel(t) != ""
    ensures Deviates(s, t) <==> Deviates(s[1..], AfterLevel(t))
  {
    if |s| > 2 {
      HashSuffix(s);
      if EndsInHash(s) {
        var p := BeforeHash(s);
        assert p == "+" || (|p| > 1 && p[1] == s[1]);
        TailsDropPlus(p, t);
        DeviatesAs(s, p, t);
        DeviatesAs(s[1..], p[1..], AfterLevel(t));
      }
    }
  }

  lemma {:induction false} AfterLevelPrefix(t: string)
    requires AfterLevel(t) != ""
    ensures AfterLevel(t[..|t| - 1]) == AfterLevel(t)[..|AfterLevel(t)| - 1]
  {
    var tm := t[..|t| - 1];
    if t[0] == '/' {
      assert tm == "" || tm[0] == '/';
    } else {
      assert AfterLevel(t) == AfterLevel(t[1..]);
      assert |t| > 1;
      AfterLevelPrefix(t[1..]);
      assert tm[0] == t[0] && tm[1..] == t[1..][..|t[1..]| - 1];
    }
  }

  /** The filters that match a topic of one empty level. */
  lemma MatchesEmptyLevel(s: string)
    requires s != "" && LevelWise(s, "")
    ensures s == "#" || s == "+" || s == "/#" || s == "+/#"
  {
    ShortLevels();
    var f := Levels(s);
    assert f == [f[0]] + f[1..] && [""] == [""] + [];
    MatchCons(f[0], f[1..], "", []);
    if f == ["#"] {
      SameLevels(s, "#");
    } else {
      assert f[1..] == [] || f[1..] == ["#"];
      assert f == [f[0]] || f == [f[0], "#"];
      if f == ["+"] { SameLevels(s, "+"); }
      if f == [""] { SameLevels(s, ""); }
      if f == ["", "#"] { SameLevels(s, "/#"); }
      if f == ["+", "#"] { SameLevels(s, "+/#"); }
    }
  }

  /** A leading separator on both sides, and nothing else in the topic. */
  lemma SeparatorOnly(s: string)
    ensures LevelWise("/" + s, "/") <==> LevelWise(s, "")
  {
    var f := "/" + s;
    assert f[1..] == s && "/"[1..] == "";
    MatchCons("", Levels(s), "", [""]);
    assert Levels(f) == [""] + Levels(s) && Levels("/") == [""] + [""];
  }

  /** The end of the topic reached on a separator: of the filters that still match, the two
      the scanner misses are deviations. */
  lemma LastSeparator(s: string)
    requires s != ""
    ensures s == "/#" || s == "+" ==> LevelWise("/" + s, "/") && !Deviates("/" + s, "/")
    ensures s != "/#" && s != "+" && LevelWise("/" + s, "/") ==> Deviates("/" + s, "/")
  {
    SeparatorOnly(s);
    var f := "/" + s;
    if s == "/#" {
      SlashHash();
    } else if s == "+" {
      PlusAlone("");
      assert f[|f| - 1] == '+';
    } else if LevelWise(s, "") {
      MatchesEmptyLevel(s);
      if s == "#" {
        DeviatesAs(f, "", "/");
        assert "/"[..0] == "";
        LevelWiseRefl("");
      } else {
        assert f == "/+" + "/#";
        DeviatesAs(f, "/+", "/");
        SeparatorOnly("+");
        PlusAlone("");
        ShortLevels();
      }
    }
  }

  /** The filter `//#` and the topic `/`. */
  lemma SlashHash()
    ensures LevelWise("//#", "/") && !Deviates("//#", "/")
  {
    ShortLevels();
    assert ["", "#"] == [""] + ["#"] && [""] == [""] + [];
    MatchCons("", ["#"], "", []);
    SeparatorOnly("/#");
    DeviatesAs("//#", "/", "/");
    assert "/"[1..] == "" && "/"[..0] == "";
    MatchCons("", [""], "", []);
  }

  lemma LastPlain(s: string, c: char)
    requires |s| > 1 && s[0] == c && c != '/' && Plain([c])
    requires Plain(Levels(s[1..])[0])
    ensures LevelWise(s, [c]) <==> s[1..] == "/#"
    ensures LevelWise(s, [c]) ==> !Deviates(s, [c])
  {
    var (t, s') := ([c], s[1..]);
    assert t[1..] == "" && s == t + s' && c in t;
    assert Levels(t) == [t] by { SplitIsUnique([t]); }
    var f' := Levels(s');
    assert Levels(s) == [t + f'[0]] + f'[1..];
    LastLevels(c, f');
    ShortLevels();
    if LevelWise(s, t) {
      if f' == [""] { SameLevels(s', ""); } else { SameLevels(s', "/#"); }
    }
    if s' == "/#" {
      assert BeforeHash(s) == t;
      assert LastLevel(t) == t && t != "+";
    }
  }

  /** The levels that match a topic of one character, when the first begins with it. */
  lemma LastLevels(c: char, fs: seq<string>)
    requires fs != [] && Plain([c])
    ensures LevelsMatch([[c] + fs[0]] + fs[1..], [[c]]) <==> fs == [""] || fs == ["", "#"]
  {
    assert [[c]] == [[c]] + [];
    assert [c] + fs[0] == [c] <==> fs[0] == "";
    assert ([c] + fs[0])[0] == c && c in [c];
    MatchCons([c] + fs[0], fs[1..], [c], []);
    assert LevelsMatch(fs[1..], []) <==> fs[1..] == [] || fs[1..] == ["#"];
  }

  lemma Mismatch(s: string, t: string)
    requires s != "" && t != "" && s[0] != t[0] && s[0] != '+' && s[0] != '#'
    ensures !LevelWise(s, t)
  {
    FirstLevel(s);
    FirstLevel(t);
  }

  /** The cursors on an equal character that is the last of the topic. */
  lemma ScanLast(s: CString, t: CString)
    requires s != "" && |t| == 1 && s[0] == t[0] && Plain(t)
    requires CharsOk(s[0], s[1..])
    ensures LevelWise(s, t) && !Deviates(s, t) <==>
              |s| == 1 || (|s| == 3 && s[1] == '/' && s[2] == '#') || (|s| == 2 && s[1] == '+')
  {
    CharsOkIsWellFormed(s[0], s[1..]);
    assert t[0] in t && t == [s[0]];
    assert s[1..] == "/#" <==> |s| == 3 && s[1] == '/' && s[2] == '#';
    assert s[1..] == "+" <==> |s| == 2 && s[1] == '+';
    if |s| == 1 {
      assert s == t;
      LevelWiseRefl(s);
    } else if s[0] == '/' {
      LastSeparator(s[1..]);
      assert t == "/" && s == "/" + s[1..];
    } else {
      LastPlain(s, s[0]);
      assert s[1..][0] != '+';
    }
  }

  /** The filter ends on an equal character and the topic goes on. */
  lemma FilterEnds(s: CString, t: CString)
    requires |s| == 1 && |t| > 1 && s[0] == t[0] && Plain(t)
    ensures !LevelWise(s, t)
  {
    assert t[0] in t && s[1..] == "";
    ShortLevels();
    DropEqual(s, t);
    SingleEmpty(t[1..]);
  }

  /** The scanner computes the level-wise verdict, save for the two deviations. */
  lemma {:induction false} ScanCorrect(sub: CString, topic: CString, spos: nat, tpos: nat, prev: char)
    requires spos < |sub| && tpos < |topic| && CharsOk(prev, sub[spos..]) && Plain(topic)
    ensures Scan(sub, topic, spos, tpos) <==>
              LevelWise(sub[spos..], topic[tpos..]) && !Deviates(sub[spos..], topic[tpos..])
    decreases |sub| - spos
  {
    var (s, t) := (sub[spos..], topic[tpos..]);
    assert s[1..] == sub[spos + 1..] && t[1..] == topic[tpos + 1..];
    if s[0] == t[0] {
      if |t| == 1 {
        ScanLast(s, t);
      } else if |s| == 1 {
        FilterEnds(s, t);
      } else {
        CharsOkIsWellFormed(s[0], s[1..]);
        assert Plain(s[..1]) by { assert s[..1] == t[..1]; assert forall c :: c in t ==> c in topic; }
        DropEqual(s, t);
        DeviatesDropEqual(s, t);
        ScanCorrect(sub, topic, spos + 1, tpos + 1, s[0]);
      }
    } else if s[0] == '+' {
      ScanPlus(sub, topic, spos, tpos);
      if |s| > 1 && AfterLevel(t) != "" {
        ScanCorrect(sub, topic, spos + 1, LevelEnd(topic, tpos), s[0]);
      }
    } else if s[0] == '#' {
      ShortLevels();
      assert s == "#";
    } else {
      Mismatch(s, t);
    }
  }

  /** The cursors on a '+': either an end is reached, or both go to the next separator. */
  lemma ScanPlus(sub: CString, topic: CString, spos: nat, tpos: nat)
    requires spos < |sub| && tpos < |topic| && sub[spos] == '+'
    requires spos + 1 == |sub| || sub[spos + 1] == '/'
    ensures topic[LevelEnd(topic, tpos)..] == AfterLevel(topic[tpos..])
    ensures var (s, t, next) := (sub[spos..], topic[tpos..], LevelEnd(topic, tpos));
            var good := LevelWise(s, t) && !Deviates(s, t);
            && (|s| == 1 ==> (good <==> next == |topic|))
            && (|s| > 1 && next == |topic| ==> !good)
            && (|s| > 1 && next < |topic| ==>
                 (good <==> LevelWise(s[1..], topic[next..]) && !Deviates(s[1..], topic[next..])))
  {
    LevelEndIsAfterLevel(topic, tpos);
    PlusStep(sub[spos..], topic[tpos..]);
  }

  /** The same on what is left of both. */
  lemma PlusStep(s: string, t: string)
    requires s != "" && s[0] == '+' && (|s| == 1 || s[1] == '/') && t != ""
    ensures var (rest, good) := (AfterLevel(t), LevelWise(s, t) && !Deviates(s, t));
            if |s| == 1 then good <==> rest == ""
            else if rest == "" then !good
            else good <==> LevelWise(s[1..], rest) && !Deviates(s[1..], rest)
  {
    if |s| == 1 {
      assert s == "+";
      LevelsAfterLevel(t);
      PlusAlone(t);
    } else if AfterLevel(t) == "" {
      PlusAtEnd(s, t);
    } else {
      DropPlus(s, t);
      DeviatesDropPlus(s, t);
    }
  }

  lemma LevelWiseRefl(s: string)
    ensures LevelWise(s, s)
  {
    LevelsMatchRefl(Levels(s));
  }

  lemma LevelsMatchRefl(ls: seq<string>)
    ensures LevelsMatch(ls, ls)
  {
  }

  lemma SingleEmpty(t: string)
    requires t != ""
    ensures !LevelWise("", t)
  {
    ShortLevels();
    if LevelWise("", t) {
      var g := Levels(t);
      assert g == [g[0]] + g[1..] && [""] == [""] + [];
      MatchCons("", [], g[0], g[1..]);
      SameLevels(t, "");
    }
  }

  /** The scanner of util_mosq.c. `result` is written through a pointer and left alone when
      both strings are empty, so its initial value is a parameter.

      On a well-formed pair the answer is the level-wise one, except on the two deviating
      shapes, where it is always no: a yes is always right. */
  method TopicMatchesSub(sub: CString, topic: CString, initial: bool) returns (result: bool)
    ensures sub == "" && topic == "" ==> result == initial
    ensures (sub == "") != (topic == "") ==> !result
    ensures sub != "" && topic != "" && AcceptedFilter(sub) && AcceptedTopic(topic) ==>
              (result <==> Matches(sub, topic) && !Deviates(sub, topic))
  {
    if sub != "" && topic != "" {
      if (sub[0] == '$' && topic[0] != '$') || (topic[0] == '$' && sub[0] != '$') {
        if sub[0] != '+' && sub[0] != '#' {
          Mismatch(sub, topic);
        }
        return false;
      }
      ScanStart(sub, topic);
    }
    result := RunCursors(sub, topic, initial);
  }

  /** The loop of the scanner: two cursors that move over the strings together. */
  method RunCursors(sub: CString, topic: CString, initial: bool) returns (result: bool)
    ensures sub == "" && topic == "" ==> result == initial
    ensures sub != "" || topic != "" ==> result == Scan(sub, topic, 0, 0)
  {
    result := initial;
    var slen, tlen := |sub|, |topic|;
    var spos, tpos := 0, 0;
    while spos < slen && tpos < tlen
      invariant 0 <= spos <= slen && 0 <= tpos <= tlen
      invariant spos == slen && tpos == tlen ==> slen == 0 && tlen == 0
      invariant Scan(sub, topic, spos, tpos) == Scan(sub, topic, 0, 0)
    {
      if sub[spos] == topic[tpos] {
        if tpos == tlen - 1 {
          if spos == slen - 3 && sub[spos + 1] == '/' && sub[spos + 2] == '#' {
            return true;
          }
        }
        spos := spos + 1;
        tpos := tpos + 1;
        if spos == slen && tpos == tlen {
          return true;
        } else if tpos == tlen && spos == slen - 1 && sub[spos] == '+' {
          return true;
        }
      } else if sub[spos] == '+' {
        spos := spos + 1;
        ghost var from := tpos;
        while tpos < tlen && topic[tpos] != '/'
          invariant tpos <= tlen
          invariant LevelEnd(topic, tpos) == LevelEnd(topic, from)
        {
          tpos := tpos + 1;
        }
        if tpos == tlen && spos == slen {
          return true;
        }
      } else if sub[spos] == '#' {
        return spos + 1 == slen;
      } else {
        return false;
      }
    }
    if tpos < tlen || spos < slen {
      result := false;
    }
  }

  lemma ScanStart(sub: CString, topic: CString)
    requires sub != "" && topic != ""
    requires sub[0] == '$' <==> topic[0] == '$'
    ensures AcceptedFilter(sub) && AcceptedTopic(topic) ==>
              (Scan(sub, topic, 0, 0) <==> Matches(sub, topic) && !Deviates(sub, topic))
  {
    CharsOkIsWellFormed('\0', sub);
    if AcceptedFilter(sub) && AcceptedTopic(topic) {
      assert sub[0..] == sub && topic[0..] == topic;
      ScanCorrect(sub, topic, 0, 0, '\0');
    }
  }

  /** Both deviating shapes occur on accepted pairs. */
  lemma DeviationsOccur()
    ensures AcceptedFilter("+/#") && AcceptedTopic("a") && Matches("+/#", "a") && Deviates("+/#", "a")
    ensures AcceptedFilter("/#") && AcceptedTopic("/") && Matches("/#", "/") && Deviates("/#", "/")
  {
    ShortLevels();
    PlusAlone("a");
    DeviatesAs("+/#", "+", "a");
    DeviatesAs("/#", "", "/");
    assert "a"[1..] == "" && "/"[1..] == "" && "/"[..0] == "";
    assert ["+", "#"] == ["+"] + ["#"] && ["", "#"] == [""] + ["#"];
    MatchCons("+", ["#"], Levels("a")[0], []);
    MatchCons("", ["#"], "", [""]);
    assert Levels("a") == [Levels("a")[0]] + [] && Levels("/") == [""] + [""];
  }

  // ---------------------------------------------------------------- The tokeniser

  /** An entry of the token array: an empty level is left as a null pointer. */
  datatype Token = Null | Text(chars: string)

  function TokenOf(level: string): Token {
    if level == "" then Null else Text(level)
  }

  function TextOf(token: Token): string {
    match token
    case Null => ""
    case Text(chars) => chars
  }

  /** Cutting at the first separator gives the first level and the levels of the rest. */
  lemma {:induction false} CutLevel(s: string, k: nat)
    requires k <= |s| && '/' !in s[..k]
    requires k < |s| ==> s[k] == '/'
    ensures Levels(s) == [s[..k]] + (if k < |s| then Levels(s[k + 1..]) else [])
  {
    if k > 0 {
      assert s[0] in s[..k];
      assert s[1..][..k - 1] == s[..k][1..];
      CutLevel(s[1..], k - 1);
      assert [s[0]] + s[1..][..k - 1] == s[..k];
      if k < |s| {
        assert s[1..][k..] == s[k + 1..];
      }
    } else {
      assert s[..0] == "";
    }
  }

  lemma {:induction false} SeparatorsSnoc(s: string, k: nat)
    requires k < |s|
    ensures Separators(s[..k + 1]) == Separators(s[..k]) + if s[k] == '/' then 1 else 0
  {
    if k == 0 {
    } else {
      SeparatorsSnoc(s[1..], k - 1);
      assert s[..k + 1][1..] == s[1..][..k] && s[..k][1..] == s[1..][..k - 1];
    }
  }

  /** With `hier` levels behind and the next one running from `start` to `stop`. */
  lemma NextLevel(s: string, hier: nat, start: nat, stop: nat)
    requires start <= stop <= |s| && hier <= |Levels(s)|
    requires Levels(s[start..]) == Levels(s)[hier..]
    requires forall k :: start <= k < stop ==> s[k] != '/'
    requires stop < |s| ==> s[stop] == '/'
    ensures hier < |Levels(s)| && Levels(s)[hier] == s[start..stop]
    ensures stop < |s| ==> Levels(s[stop + 1..]) == Levels(s)[hier + 1..]
    ensures stop == |s| ==> hier + 1 == |Levels(s)|
  {
    var r := s[start..];
    assert r[..stop - start] == s[start..stop];
    CutLevel(r, stop - start);
    assert Levels(r)[0] == Levels(s)[hier];
    if stop < |s| {
      assert r[stop - start + 1..] == s[stop + 1..];
      assert Levels(r)[1..] == Levels(s)[hier + 1..];
    }
  }

  method CountLevels(s: string) returns (count: nat)
    ensures count == Separators(s) + 1
  {
    count := 1;
    for i := 0 to |s|
      invariant count == Separators(s[..i]) + 1
    {
      SeparatorsSnoc(s, i);
      if s[i] == '/' {
        count := count + 1;
      }
    }
    assert s[..|s|] == s;
  }

  /** The token array once the first `hier` levels are stored. */
  ghost function Filled(levels: seq<string>, hier: nat): (tokens: seq<Token>) {
    seq(|levels|, k requires 0 <= k < |levels| => if k < hier then TokenOf(levels[k]) else Null)
  }

  lemma FilledNext(levels: seq<string>, hier: nat)
    requires hier < |levels|
    ensures Filled(levels, hier)[hier := TokenOf(levels[hier])] == Filled(levels, hier + 1)
    ensures Filled(levels, hier)[hier] == Null
  {
  }

  /** The body of the tokeniser's loop at the end of a level. */
  method StoreToken(topics: array<Token>, hier: nat, s: string, start: nat, stop: nat)
    requires start <= stop <= |s| && hier < topics.Length && topics[hier] == Null
    modifies topics
    ensures topics[..] == old(topics[..])[hier := TokenOf(s[start..stop])]
  {
    if start != stop {
      var text := CopyRange(s, start, stop);
      topics[hier] := Text(text);
    }
  }

  /** One entry for each level, in order; with LevelsJoin this means that the number of
      entries is one more than the number of separators, and that joining them with '/'
      (null as the empty string) gives the argument back. */
  method Tokenise(subtopic: CString) returns (topics: array<Token>, count: nat)
    ensures fresh(topics) && topics.Length == count == Separators(subtopic) + 1
    ensures |Levels(subtopic)| == count
    ensures forall k :: 0 <= k < count ==> topics[k] == TokenOf(Levels(subtopic)[k])
  {
    count := CountLevels(subtopic);
    LevelsJoin(subtopic);
    topics := new Token[count](_ => Null);
    FillTokens(subtopic, topics);
    assert forall k :: 0 <= k < count ==> topics[k] == topics[..][k];
  }

  method FillTokens(subtopic: string, topics: array<Token>)
    requires topics.Length == |Levels(subtopic)|
    requires forall k :: 0 <= k < topics.Length ==> topics[k] == Null
    modifies topics
    ensures topics[..] == Filled(Levels(subtopic), topics.Length)
  {
    ghost var levels := Levels(subtopic);
    var len := |subtopic|;
    var start, hier := 0, 0;
    assert subtopic[0..] == subtopic && levels[0..] == levels;
    for i := 0 to len + 1
      invariant start <= i && hier <= |levels|
      invariant if i == len + 1 then hier == |levels| else start <= len && Levels(subtopic[start..]) == levels[hier..]
      invariant forall k :: start <= k < i && k < len ==> subtopic[k] != '/'
      invariant topics[..] == Filled(levels, hier)
    {
      if i == len || subtopic[i] == '/' {
        NextLevel(subtopic, hier, start, i);
        FilledNext(levels, hier);
        assert topics[hier] == topics[..][hier];
        StoreToken(topics, hier, subtopic, start, i);
        start := i + 1;
        hier := hier + 1;
      }
    }
  }

  /** The copy loop of the tokeniser. */
  method CopyRange(s: string, start: nat, stop: nat) returns (text: string)
    requires start <= stop <= |s|
    ensures text == s[start..stop]
  {
    text := "";
    for j := start to stop
      invariant text == s[start..j]
    {
      text := text + [s[j]];
    }
  }

  /** What the tokens say: joined with '/' they are the string again. */
  lemma TokensJoin(s: string, tokens: seq<Token>)
    requires |tokens| == |Levels(s)|
    requires forall k :: 0 <= k < |tokens| ==> tokens[k] == TokenOf(Levels(s)[k])
    ensures Join(seq(|tokens|, k requires 0 <= k < |tokens| => TextOf(tokens[k]))) == s
    ensures |tokens| == Separators(s) + 1
  {
    LevelsJoin(s);
    assert seq(|tokens|, k requires 0 <= k < |tokens| => TextOf(tokens[k])) == Levels(s);
  }
}
