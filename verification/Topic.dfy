/**
  MQTT topic filters: mqtt/topic.py and the filter check of config.py, against
  sections 4.7.1 and 4.7.2 of MQTT 3.1.1.
*/
module Topic {
  import opened Common
  import opened Strings

  // ----- the standard -------------------------------------------------------

  /** Level by level: `+` stands for one level, a final `#` for any number of them,
      the parent included. */
  predicate LevelsMatch(filter: seq<string>, topic: seq<string>) {
    if filter == [] then topic == []
    else if filter == ["#"] then true
    else topic != [] && (filter[0] == "+" || filter[0] == topic[0]) && LevelsMatch(filter[1..], topic[1..])
  }

  predicate Reserved(topic: seq<string>) {
    topic != [] && topic[0] != "" && topic[0][0] == '$'
  }

  /** A filter starting with a wildcard does not match topics starting with `$`. */
  predicate Matches(filter: seq<string>, topic: seq<string>) {
    LevelsMatch(filter, topic) && !(filter != [] && (filter[0] == "#" || filter[0] == "+") && Reserved(topic))
  }

  /** The same relation by substitution: the filter turns into the topic when each
      `+` is replaced by some level and a final `#` by some levels. */
  ghost predicate Substitutes(filter: seq<string>, topic: seq<string>) {
    if filter != [] && filter[|filter| - 1] == "#"
    then |topic| >= |filter| - 1 && PlusInstance(filter[..|filter| - 1], topic[..|filter| - 1])
    else |topic| == |filter| && PlusInstance(filter, topic)
  }

  predicate PlusInstance(filter: seq<string>, topic: seq<string>)
    requires |filter| == |topic|
  {
    forall i :: 0 <= i < |filter| ==> filter[i] == "+" || filter[i] == topic[i]
  }

  /** `+` and `#` occupy whole levels and `#` only the last. */
  predicate ValidLevels(levels: seq<string>) {
    forall i :: 0 <= i < |levels| ==>
      && ('+' in levels[i] ==> levels[i] == "+")
      && ('#' in levels[i] ==> levels[i] == "#" && i == |levels| - 1)
  }

  predicate WildcardFree(s: string) {
    '+' !in s && '#' !in s
  }

  lemma {:induction false} LevelsMatchIsSubstitution(filter: seq<string>, topic: seq<string>)
    requires ValidLevels(filter)
    ensures LevelsMatch(filter, topic) <==> Substitutes(filter, topic)
  {
    if filter == [] {
    } else if filter == ["#"] {
    } else if topic != [] {
      var f, t := filter[1..], topic[1..];
      assert ValidLevels(f);
      LevelsMatchIsSubstitution(f, t);
      if filter[|filter| - 1] == "#" {
        assert f != [] && f[|f| - 1] == "#";
        assert f[..|f| - 1] == filter[..|filter| - 1][1..];
        if |topic| >= |filter| - 1 {
          assert t[..|f| - 1] == topic[..|filter| - 1][1..];
        }
      }
    }
  }

  // ----- the code -----------------------------------------------------------

  /** For every valid filter and every topic, the loop decides the standard's
      relation; the equality shortcut at its head never disagrees with it. */
  method TopicMatches(topicFilter: string, topic: string) returns (r: bool)
    ensures ValidLevels(Split(topicFilter, '/')) ==> (r <==> Matches(Split(topicFilter, '/'), Split(topic, '/')))
  {
    if topicFilter == topic {
      if ValidLevels(Split(topicFilter, '/')) { ValidMatchesItself(Split(topic, '/')); }
      return true;
    }
    var filterLevels := Split(topicFilter, '/');
    var topicLevels := Split(topic, '/');
    for index := 0 to |filterLevels|
      invariant index <= |topicLevels|
      invariant LevelsMatch(filterLevels, topicLevels) <==> LevelsMatch(filterLevels[index..], topicLevels[index..])
      invariant index > 0 ==> filterLevels[0] != "#" && !(filterLevels[0] == "+" && Reserved(topicLevels))
    {
      var level := filterLevels[index];
      if level == "#" {
        assert ValidLevels(filterLevels) ==> filterLevels[index..] == ["#"];
        return index != 0 || !(topicLevels[0] != "" && topicLevels[0][0] == '$');
      }
      if index >= |topicLevels| {
        return false;
      }
      assert filterLevels[index..][1..] == filterLevels[index + 1..];
      assert topicLevels[index..][1..] == topicLevels[index + 1..];
      if level == "+" {
        if index == 0 && topicLevels[0] != "" && topicLevels[0][0] == '$' {
          return false;
        }
      } else if level != topicLevels[index] {
        return false;
      }
    }
    return |filterLevels| == |topicLevels|;
  }

  lemma ValidMatchesItself(levels: seq<string>)
    requires ValidLevels(levels) && levels != []
    ensures Matches(levels, levels)
  {
    LevelsMatchIsSubstitution(levels, levels);
  }

  /** A filter without wildcards matches exactly the identical topic string. */
  lemma WildcardFreeMatchesItselfOnly(topicFilter: string, topic: string)
    requires WildcardFree(topicFilter)
    ensures ValidLevels(Split(topicFilter, '/'))
    ensures Matches(Split(topicFilter, '/'), Split(topic, '/')) <==> topicFilter == topic
  {
    LevelsAreParts(topicFilter);
    LevelsMatchIsSubstitution(Split(topicFilter, '/'), Split(topic, '/'));
    if Matches(Split(topicFilter, '/'), Split(topic, '/')) {
      assert Split(topicFilter, '/') == Split(topic, '/');
      JoinSplit(topicFilter, '/');
      JoinSplit(topic, '/');
    }
  }

  lemma {:induction false} LevelsAreParts(s: string)
    requires WildcardFree(s)
    ensures forall i :: 0 <= i < |Split(s, '/')| ==> WildcardFree(Split(s, '/')[i])
  {
    if s == "" {
    } else {
      LevelsAreParts(s[1..]);
    }
  }

  // ----- assert_valid_topic_filter -------------------------------------------

  datatype FilterError = Empty | PlusInsideLevel | HashInsideLevel | HashNotLast

  method AssertValidTopicFilter(topicFilter: string) returns (r: Result<(), FilterError>)
    ensures r.Ok? <==> topicFilter != "" && ValidLevels(Split(topicFilter, '/'))
    ensures r == Err(Empty) <==> topicFilter == ""
  {
    if topicFilter == "" {
      return Err(Empty);
    }
    var levels := Split(topicFilter, '/');
    for index := 0 to |levels|
      invariant forall i :: 0 <= i < index ==>
        && ('+' in levels[i] ==> levels[i] == "+")
        && ('#' in levels[i] ==> levels[i] == "#" && i == |levels| - 1)
    {
      var level := levels[index];
      if '+' in level && level != "+" {
        return Err(PlusInsideLevel);
      }
      if '#' in level {
        if level != "#" {
          return Err(HashInsideLevel);
        }
        if index != |levels| - 1 {
          return Err(HashNotLast);
        }
      }
    }
    return Ok(());
  }

  predicate Wildcard(c: char) {
    c == '+' || c == '#'
  }

  /** The same check on characters: a wildcard has a separator or an end on each
      side, and `#` is the last character. `start` says whether `s` begins a level. */
  predicate ValidCharacters(s: string, start: bool) {
    forall i :: 0 <= i < |s| ==> Fits(s, start, i)
  }

  predicate Fits(s: string, start: bool, i: nat)
    requires i < |s|
  {
    Wildcard(s[i]) ==>
      && (if i == 0 then start else s[i - 1] == '/')
      && (i == |s| - 1 || (s[i] == '+' && s[i + 1] == '/'))
  }

  predicate ValidFrom(levels: seq<string>, start: bool)
    requires levels != []
  {
    if start then ValidLevels(levels) else WildcardFree(levels[0]) && ValidLevels(levels[1..])
  }

  lemma HeadCharacter(s: string, start: bool)
    requires s != ""
    ensures ValidCharacters(s, start) <==>
      (Wildcard(s[0]) ==> start && (|s| == 1 || (s[0] == '+' && s[1] == '/'))) && ValidCharacters(s[1..], s[0] == '/')
  {
    var t, b := s[1..], s[0] == '/';
    if ValidCharacters(t, b) && Fits(s, start, 0) {
      forall i | 0 <= i < |s| ensures Fits(s, start, i) {
        if i > 0 { FitsTail(s, start, i - 1); }
      }
    }
    if ValidCharacters(s, start) {
      forall i | 0 <= i < |t| ensures Fits(t, b, i) {
        FitsTail(s, start, i);
      }
    }
  }

  lemma FitsTail(s: string, start: bool, i: nat)
    requires i < |s| - 1
    ensures Fits(s[1..], s[0] == '/', i) <==> Fits(s, start, i + 1)
  {
  }

  lemma HeadLevel(level: string, rest: seq<string>)
    ensures ValidLevels([level] + rest) <==>
      ValidLevels(rest) && ('+' in level ==> level == "+") && ('#' in level ==> level == "#" && rest == [])
  {
    var all := [level] + rest;
    if ValidLevels(all) {
      assert all[0] == level;
      forall i | 0 <= i < |rest|
        ensures ('+' in rest[i] ==> rest[i] == "+") && ('#' in rest[i] ==> rest[i] == "#" && i == |rest| - 1)
      {
        assert all[i + 1] == rest[i];
      }
    }
  }

  /** The level check and the character check accept the same filters. */
  lemma {:induction false} ValidCharactersAreLevels(s: string, start: bool)
    ensures ValidCharacters(s, start) <==> ValidFrom(Split(s, '/'), start)
  {
    if s == "" {
    } else {
      var rest := Split(s[1..], '/');
      HeadCharacter(s, start);
      ValidCharactersAreLevels(s[1..], s[0] == '/');
      if s[0] == '/' {
        HeadLevel("", rest);
        assert ([""] + rest)[1..] == rest;
      } else {
        HeadLevel([s[0]] + rest[0], rest[1..]);
        assert Split(s, '/')[1..] == rest[1..];
        assert s[0] in Split(s, '/')[0];
        EmptyHead(s[1..]);
      }
    }
  }

  lemma EmptyHead(s: string)
    ensures Split(s, '/')[0] == "" <==> s == "" || s[0] == '/'
    ensures Split(s, '/') == [""] <==> s == ""
  {
  }
}
