/** robots.txt (crates/probe/src/robots.rs): a one-pass parser against the
    reading of the file as groups. */
module Robots {
  import opened Common
  import Text

  datatype Decision = Allowed | Disallowed | Unavailable(reason: string)

  datatype Rules = Open | Restricted(prefixes: seq<string>) | RulesUnavailable(reason: string)

  function ApplyRules(rules: Rules, path: string): Decision
  {
    match rules
    case Open => Allowed
    case RulesUnavailable(reason) => Unavailable(reason)
    case Restricted(prefixes) => if Blocks(prefixes, path) then Disallowed else Allowed
  }

  predicate Blocks(prefixes: seq<string>, path: string)
  {
    exists p :: p in prefixes && p != [] && p <= path
  }

  // ---- Lines ------------------------------------------------------------------------

  function StripComment(line: string): string { line[..Text.IndexOf(line, '#')] }

  /** What one line says. Nothing covers blank lines and lines without a colon. */
  datatype Line = Nothing | UserAgent(name: string) | Disallow(path: string) | OtherDirective

  function Classify(raw: string): Line
  {
    var line := Text.Trim(StripComment(raw));
    if line == [] then Nothing else
      match Text.SplitOnce(line, ':')
      case None => Nothing
      case Some((k, v)) =>
        var key := Text.ToLower(Text.Trim(k));
        var content := Text.Trim(v);
        if key == "user-agent" then UserAgent(content)
        else if key == "disallow" then Disallow(content)
        else OtherDirective
  }

  /** `body.lines()`; a carriage return left at the end goes with the trim. */
  function Lines(body: string): seq<string>
  {
    var i := Text.IndexOf(body, '\n');
    if i == |body| then (if body == [] then [] else [body]) else [body[..i]] + Lines(body[i + 1..])
  }

  function Classified(raw: seq<string>): seq<Line>
  {
    seq(|raw|, i requires 0 <= i < |raw| => Classify(raw[i]))
  }

  predicate NamesUs(agent: string, token: string)
  {
    Text.EqIgnoreCase(agent, token) || agent == "*"
  }

  // ---- The one-pass parser --------------------------------------------------------------

  /** What the parser still collects from these lines, given its two flags. */
  function Collected(lines: seq<Line>, token: string, applies: bool, started: bool): seq<string>
  {
    if lines == [] then [] else
      match lines[0]
      case Nothing => Collected(lines[1..], token, applies, started)
      case UserAgent(name) =>
        Collected(lines[1..], token, (applies && !started) || NamesUs(name, token), false)
      case Disallow(path) =>
        (if applies && path != [] then [path] else []) + Collected(lines[1..], token, applies, true)
      case OtherDirective => Collected(lines[1..], token, applies, true)
  }

  /** What is collected so far and what the remaining lines will add. */
  ghost function Whole(sofar: seq<string>, lines: seq<Line>, i: nat, token: string, applies: bool, started: bool): seq<string>
    requires i <= |lines|
  {
    sofar + Collected(lines[i..], token, applies, started)
  }

  lemma WholeStep(sofar: seq<string>, lines: seq<Line>, i: nat, token: string, applies: bool, started: bool)
    requires i < |lines|
    ensures Whole(sofar, lines, i, token, applies, started) ==
      match lines[i]
      case Nothing => Whole(sofar, lines, i + 1, token, applies, started)
      case UserAgent(name) => Whole(sofar, lines, i + 1, token, (applies && !started) || NamesUs(name, token), false)
      case Disallow(path) => Whole(if applies && path != [] then sofar + [path] else sofar, lines, i + 1, token, applies, true)
      case OtherDirective => Whole(sofar, lines, i + 1, token, applies, true)
  {
    assert lines[i..] == [lines[i]] + lines[i + 1..];
    CollectedFirst(lines[i], lines[i + 1..], token, applies, started);
    if lines[i].Disallow? {
      Regroup(sofar, [lines[i].path], Collected(lines[i + 1..], token, applies, true));
    }
  }

  method ParseDisallow(body: string, token: string) returns (disallows: seq<string>)
    ensures disallows == Collected(Classified(Lines(body)), token, false, false)
  {
    disallows := [];
    var applies, started := false, false;
    var raw := Lines(body);
    ghost var lines := Classified(raw);
    for i := 0 to |raw|
      invariant Whole(disallows, lines, i, token, applies, started) == Whole([], lines, 0, token, false, false)
    {
      WholeStep(disallows, lines, i, token, applies, started);
      match Classify(raw[i]) {
        case Nothing =>
        case UserAgent(name) =>
          if started { applies, started := false, false; }
          if NamesUs(name, token) { applies := true; }
        case Disallow(path) =>
          started := true;
          if applies && path != [] { disallows := disallows + [path]; }
        case OtherDirective =>
          started := true;
      }
    }
    assert lines[0..] == lines && lines[|raw|..] == [];
    assert Whole([], lines, 0, token, false, false) == Collected(lines, token, false, false);
    assert Whole(disallows, lines, |raw|, token, applies, started) == disallows;
  }

  // ---- The file as groups ------------------------------------------------------------------

  /** A maximal run of User-agent lines and the directives up to the next one. */
  datatype Group = Group(agents: seq<string>, rules: seq<Line>)

  /** The lines that mean something. */
  function Meaningful(lines: seq<Line>): seq<Line>
  {
    if lines == [] then []
    else if lines[0].Nothing? then Meaningful(lines[1..])
    else [lines[0]] + Meaningful(lines[1..])
  }

  /** How many of the first lines are User-agent lines. */
  function AgentRun(lines: seq<Line>): (n: nat)
    ensures n <= |lines|
    ensures forall i :: 0 <= i < n ==> lines[i].UserAgent?
    ensures n < |lines| ==> !lines[n].UserAgent?
  {
    if lines == [] || !lines[0].UserAgent? then 0 else 1 + AgentRun(lines[1..])
  }

  /** How many of the first lines are not. */
  function RuleRun(lines: seq<Line>): (n: nat)
    ensures n <= |lines|
    ensures forall i :: 0 <= i < n ==> !lines[i].UserAgent?
    ensures n < |lines| ==> lines[n].UserAgent?
  {
    if lines == [] || lines[0].UserAgent? then 0 else 1 + RuleRun(lines[1..])
  }

  function NamesIn(lines: seq<Line>): seq<string>
    requires forall i :: 0 <= i < |lines| ==> lines[i].UserAgent?
  {
    seq(|lines|, i requires 0 <= i < |lines| => lines[i].name)
  }

  function FirstGroup(lines: seq<Line>): Group
  {
    var rules := lines[AgentRun(lines)..];
    Group(NamesIn(lines[..AgentRun(lines)]), rules[..RuleRun(rules)])
  }

  function AfterFirst(lines: seq<Line>): (rest: seq<Line>)
    ensures lines != [] ==> |rest| < |lines|
    ensures rest == [] || rest[0].UserAgent?
  {
    var rules := lines[AgentRun(lines)..];
    rules[RuleRun(rules)..]
  }

  function GroupsOf(lines: seq<Line>): seq<Group>
    decreases |lines|
  {
    if lines == [] then [] else [FirstGroup(lines)] + GroupsOf(AfterFirst(lines))
  }

  predicate Applies(g: Group, token: string)
  {
    exists a :: a in g.agents && NamesUs(a, token)
  }

  /** The non-empty Disallow values among these directives. */
  function Values(rules: seq<Line>): seq<string>
  {
    if rules == [] then []
    else (if rules[0].Disallow? && rules[0].path != [] then [rules[0].path] else []) + Values(rules[1..])
  }

  /** The values of the groups that name us. */
  function Selected(groups: seq<Group>, token: string): seq<string>
  {
    if groups == [] then []
    else (if Applies(groups[0], token) then Values(groups[0].rules) else []) + Selected(groups[1..], token)
  }

  lemma {:induction false} NothingSkipped(lines: seq<Line>, token: string, applies: bool, started: bool)
    ensures Collected(lines, token, applies, started) == Collected(Meaningful(lines), token, applies, started)
  {
    if lines != [] {
      var rest := Meaningful(lines[1..]);
      assert ([lines[0]] + rest)[1..] == rest;
      match lines[0]
      case Nothing => NothingSkipped(lines[1..], token, applies, started);
      case UserAgent(name) => NothingSkipped(lines[1..], token, (applies && !started) || NamesUs(name, token), false);
      case _ => NothingSkipped(lines[1..], token, applies, true);
    }
  }

  /** One line's effect on the parser. */
  lemma CollectedFirst(line: Line, rest: seq<Line>, token: string, applies: bool, started: bool)
    ensures Collected([line] + rest, token, applies, started) ==
      match line
      case Nothing => Collected(rest, token, applies, started)
      case UserAgent(name) => Collected(rest, token, (applies && !started) || NamesUs(name, token), false)
      case Disallow(path) => (if applies && path != [] then [path] else []) + Collected(rest, token, applies, true)
      case OtherDirective => Collected(rest, token, applies, true)
  {
    assert ([line] + rest)[1..] == rest;
  }

  /** A run of User-agent lines only settles whether the group applies. */
  lemma {:induction false} AgentsCollected(agents: seq<Line>, rest: seq<Line>, token: string, applies: bool)
    requires forall i :: 0 <= i < |agents| ==> agents[i].UserAgent?
    ensures var named := exists i :: 0 <= i < |agents| && NamesUs(agents[i].name, token);
      Collected(agents + rest, token, applies, false) == Collected(rest, token, applies || named, false)
  {
    if agents == [] {
      assert agents + rest == rest;
    } else {
      var first, later := NamesUs(agents[0].name, token), agents[1..];
      assert agents + rest == [agents[0]] + (later + rest);
      CollectedFirst(agents[0], later + rest, token, applies, false);
      AgentsCollected(later, rest, token, applies || first);
      if i :| 0 <= i < |later| && NamesUs(later[i].name, token) { assert agents[i + 1] == later[i]; }
      if i :| 0 < i < |agents| && NamesUs(agents[i].name, token) { assert agents[i] == later[i - 1]; }
    }
  }

  /** A run of directives yields its values, if the group applies. */
  lemma {:induction false} RulesCollected(rules: seq<Line>, rest: seq<Line>, token: string, applies: bool, started: bool)
    requires forall i :: 0 <= i < |rules| ==> !rules[i].UserAgent? && !rules[i].Nothing?
    ensures Collected(rules + rest, token, applies, started)
         == (if applies then Values(rules) else []) + Collected(rest, token, applies, started || rules != [])
  {
    if rules == [] {
      assert rules + rest == rest;
    } else {
      assert rules + rest == [rules[0]] + (rules[1..] + rest);
      CollectedFirst(rules[0], rules[1..] + rest, token, applies, started);
      RulesCollected(rules[1..], rest, token, applies, true);
    }
  }

  ghost predicate AllMeaningful(lines: seq<Line>)
  {
    forall i :: 0 <= i < |lines| ==> !lines[i].Nothing?
  }

  lemma {:induction false} MeaningfulOnly(lines: seq<Line>)
    ensures AllMeaningful(Meaningful(lines))
  {
    if lines != [] { MeaningfulOnly(lines[1..]); }
  }

  /** The flags a new group starts from do not matter once a User-agent line
      follows directives. */
  lemma FreshGroup(lines: seq<Line>, token: string, applies: bool)
    requires lines == [] || lines[0].UserAgent?
    ensures Collected(lines, token, applies, true) == Collected(lines, token, false, false)
  {
  }

  /** One whole group, and what follows it. */
  lemma GroupCollected(agents: seq<Line>, rules: seq<Line>, rest: seq<Line>, token: string)
    requires forall i :: 0 <= i < |agents| ==> agents[i].UserAgent?
    requires forall i :: 0 <= i < |rules| ==> !rules[i].UserAgent? && !rules[i].Nothing?
    requires rest == [] || (rest[0].UserAgent? && rules != [])
    ensures Collected(agents + (rules + rest), token, false, false)
         == (if Applies(Group(NamesIn(agents), rules), token) then Values(rules) else []) + Collected(rest, token, false, false)
  {
    var g := Group(NamesIn(agents), rules);
    AgentsCollected(agents, rules + rest, token, false);
    GroupNamed(agents, token, g);
    RulesCollected(rules, rest, token, Applies(g, token), false);
    FreshGroup(rest, token, Applies(g, token));
  }

  lemma SplitAtGroup(lines: seq<Line>)
    ensures lines == lines[..AgentRun(lines)] + (FirstGroup(lines).rules + AfterFirst(lines))
  {
    var k := AgentRun(lines);
    Cut(lines, k);
    Cut(lines[k..], RuleRun(lines[k..]));
  }

  lemma GroupRules(lines: seq<Line>)
    requires AllMeaningful(lines)
    ensures forall i :: 0 <= i < |FirstGroup(lines).rules| ==> !FirstGroup(lines).rules[i].UserAgent? && !FirstGroup(lines).rules[i].Nothing?
    ensures FirstGroup(lines).rules == [] ==> AfterFirst(lines) == []
  {
    var k := AgentRun(lines);
    var rules := lines[k..];
    forall i | 0 <= i < RuleRun(rules) ensures FirstGroup(lines).rules[i] == rules[i] && !rules[i].UserAgent? && !rules[i].Nothing? {
      assert rules[i] == lines[k + i];
    }
  }

  lemma FirstGroupCollected(lines: seq<Line>, token: string)
    requires AllMeaningful(lines) && lines != []
    ensures var g := FirstGroup(lines);
      Collected(lines, token, false, false)
        == (if Applies(g, token) then Values(g.rules) else []) + Collected(AfterFirst(lines), token, false, false)
  {
    SplitAtGroup(lines);
    GroupRules(lines);
    GroupCollected(lines[..AgentRun(lines)], FirstGroup(lines).rules, AfterFirst(lines), token);
  }

  /** The one-pass parser reads the file as its groups say. */
  lemma {:induction false} ParserReadsGroups(lines: seq<Line>, token: string)
    requires AllMeaningful(lines)
    ensures Collected(lines, token, false, false) == Selected(GroupsOf(lines), token)
    decreases |lines|
  {
    if lines != [] {
      var rest := AfterFirst(lines);
      FirstGroupCollected(lines, token);
      AfterFirstMeaningful(lines);
      ParserReadsGroups(rest, token);
      assert ([FirstGroup(lines)] + GroupsOf(rest))[1..] == GroupsOf(rest);
    }
  }

  lemma AfterFirstMeaningful(lines: seq<Line>)
    requires AllMeaningful(lines)
    ensures AllMeaningful(AfterFirst(lines))
  {
    var k := AgentRun(lines);
    var m := RuleRun(lines[k..]);
    assert forall i :: 0 <= i < |AfterFirst(lines)| ==> AfterFirst(lines)[i] == lines[k + m + i];
  }

  lemma GroupNamed(agents: seq<Line>, token: string, g: Group)
    requires (forall i :: 0 <= i < |agents| ==> agents[i].UserAgent?) && g.agents == NamesIn(agents)
    ensures Applies(g, token) <==> exists i :: 0 <= i < |agents| && NamesUs(agents[i].name, token)
  {
    if i :| 0 <= i < |agents| && NamesUs(agents[i].name, token) { assert g.agents[i] == agents[i].name; }
  }

  // ---- What a robots.txt decides ---------------------------------------------------------------

  function Decide(lines: seq<Line>, token: string, path: string): Decision
  {
    ApplyRules(Restricted(Collected(lines, token, false, false)), path)
  }

  lemma {:induction false} SelectedMember(groups: seq<Group>, token: string, v: string)
    ensures v in Selected(groups, token) <==> exists g :: g in groups && Applies(g, token) && v in Values(g.rules)
  {
    if groups != [] {
      SelectedMember(groups[1..], token, v);
      assert forall g :: g in groups <==> g == groups[0] || g in groups[1..];
    }
  }

  lemma {:induction false} ValuesMember(rules: seq<Line>, v: string)
    ensures v in Values(rules) <==> v != [] && Disallow(v) in rules
  {
    if rules != [] {
      ValuesMember(rules[1..], v);
      assert rules == [rules[0]] + rules[1..];
    }
  }

  /** Some group of these that names us rules the path out. */
  ghost predicate RuledOut(groups: seq<Group>, token: string, path: string)
  {
    exists g, v :: g in groups && Applies(g, token) && v != [] && Disallow(v) in g.rules && v <= path
  }

  lemma SelectedRules(groups: seq<Group>, token: string, v: string)
    ensures v in Selected(groups, token) <==> exists g :: g in groups && Applies(g, token) && v != [] && Disallow(v) in g.rules
  {
    SelectedMember(groups, token, v);
    forall g: Group ensures v in Values(g.rules) <==> v != [] && Disallow(v) in g.rules { ValuesMember(g.rules, v); }
  }

  /** The collected prefixes block a path exactly when the groups rule it out. */
  lemma BlocksIff(groups: seq<Group>, token: string, path: string)
    ensures Blocks(Selected(groups, token), path) <==> RuledOut(groups, token, path)
  {
    var prefixes := Selected(groups, token);
    if v :| v in prefixes && v != [] && v <= path {
      SelectedRules(groups, token, v);
      var g :| g in groups && Applies(g, token) && Disallow(v) in g.rules;
    }
    if g, v :| g in groups && Applies(g, token) && v != [] && Disallow(v) in g.rules && v <= path {
      SelectedRules(groups, token, v);
    }
  }

  /** A path is disallowed exactly when some group naming us or `*` has a
      non-empty Disallow value that is a prefix of it. */
  lemma DisallowedIff(body: string, token: string, path: string)
    ensures Decide(Classified(Lines(body)), token, path).Disallowed? <==>
            RuledOut(GroupsOf(Meaningful(Classified(Lines(body)))), token, path)
  {
    LinesDecide(Classified(Lines(body)), token, path);
  }

  lemma LinesDecide(lines: seq<Line>, token: string, path: string)
    ensures Decide(lines, token, path).Disallowed? <==> RuledOut(GroupsOf(Meaningful(lines)), token, path)
  {
    NothingSkipped(lines, token, false, false);
    MeaningfulOnly(lines);
    ParserReadsGroups(Meaningful(lines), token);
    BlocksIff(GroupsOf(Meaningful(lines)), token, path);
  }

  // ---- Moving whole groups about ------------------------------------------------------------------

  function AgentLines(agents: seq<string>): seq<Line>
  {
    seq(|agents|, i requires 0 <= i < |agents| => UserAgent(agents[i]))
  }

  /** The lines of a file made of these groups. */
  function Render(groups: seq<Group>): seq<Line>
  {
    if groups == [] then [] else AgentLines(groups[0].agents) + (groups[0].rules + Render(groups[1..]))
  }

  predicate IsGroup(g: Group)
  {
    g.agents != [] && forall i :: 0 <= i < |g.rules| ==> !g.rules[i].UserAgent? && !g.rules[i].Nothing?
  }

  /** Groups as they come in a file: only the last can lack directives. */
  ghost predicate IsFile(groups: seq<Group>)
  {
    && (forall i :: 0 <= i < |groups| ==> IsGroup(groups[i]))
    && (forall i :: 0 <= i < |groups| - 1 ==> groups[i].rules != [])
  }

  lemma RunsOf(agents: seq<Line>, rules: seq<Line>, rest: seq<Line>)
    requires forall i :: 0 <= i < |agents| ==> agents[i].UserAgent?
    requires forall i :: 0 <= i < |rules| ==> !rules[i].UserAgent?
    requires rest == [] || (rest[0].UserAgent? && rules != [])
    ensures AgentRun(agents + (rules + rest)) == |agents| && RuleRun(rules + rest) == |rules|
  {
    var lines := agents + (rules + rest);
    assert forall i :: 0 <= i < |agents| ==> lines[i] == agents[i];
    if rules + rest != [] { assert lines[|agents|] == (rules + rest)[0]; }
    assert forall i :: 0 <= i < |rules| ==> (rules + rest)[i] == rules[i];
    if rest != [] { assert (rules + rest)[|rules|] == rest[0]; }
  }

  lemma RenderStarts(groups: seq<Group>)
    requires groups != [] && IsGroup(groups[0])
    ensures Render(groups) != [] && Render(groups)[0].UserAgent?
  {
    assert AgentLines(groups[0].agents)[0].UserAgent?;
  }

  lemma NamesAgain(agents: seq<string>)
    ensures NamesIn(AgentLines(agents)) == agents
  {
  }

  /** The first group of agents and rules is taken off whole. */
  lemma FirstGroupOff(agents: seq<Line>, rules: seq<Line>, rest: seq<Line>)
    requires agents != [] && forall i :: 0 <= i < |agents| ==> agents[i].UserAgent?
    requires forall i :: 0 <= i < |rules| ==> !rules[i].UserAgent?
    requires rest == [] || (rest[0].UserAgent? && rules != [])
    ensures var lines := agents + (rules + rest);
            lines != [] && FirstGroup(lines) == Group(NamesIn(agents), rules) && AfterFirst(lines) == rest
  {
    RunsOf(agents, rules, rest);
    var lines := agents + (rules + rest);
    assert lines[..|agents|] == agents && lines[|agents|..] == rules + rest;
    assert (rules + rest)[..|rules|] == rules && (rules + rest)[|rules|..] == rest;
  }

  lemma MeaningfulConcat(a: seq<Line>, b: seq<Line>)
    requires AllMeaningful(a) && AllMeaningful(b)
    ensures AllMeaningful(a + b)
  {
  }

  lemma FileTail(groups: seq<Group>)
    requires IsFile(groups) && groups != []
    ensures IsFile(groups[1..]) && (groups[1..] != [] ==> groups[0].rules != [])
  {
    assert forall i :: 0 <= i < |groups| - 1 ==> groups[1..][i] == groups[i + 1];
  }

  /** Reading back a file's groups gives the groups it was made of. */
  lemma {:induction false} RenderParses(groups: seq<Group>)
    requires IsFile(groups)
    ensures GroupsOf(Render(groups)) == groups && AllMeaningful(Render(groups))
  {
    if groups != [] {
      var g, rest := groups[0], Render(groups[1..]);
      FileTail(groups);
      RenderParses(groups[1..]);
      if groups[1..] != [] { RenderStarts(groups[1..]); }
      FirstGroupOff(AgentLines(g.agents), g.rules, rest);
      NamesAgain(g.agents);
      MeaningfulConcat(g.rules, rest);
      MeaningfulConcat(AgentLines(g.agents), g.rules + rest);
      assert groups == [g] + groups[1..];
    }
  }

  lemma FileDecides(groups: seq<Group>, token: string, path: string)
    requires IsFile(groups)
    ensures Decide(Render(groups), token, path).Disallowed? <==> RuledOut(groups, token, path)
  {
    RenderParses(groups);
    ParserReadsGroups(Render(groups), token);
    BlocksIff(groups, token, path);
  }

  /** Reordering whole groups, repeating them or deleting other agents' groups
      changes no decision. */
  lemma OnlyOurGroupsMatter(a: seq<Group>, b: seq<Group>, token: string, path: string)
    requires IsFile(a) && IsFile(b)
    requires forall g :: Applies(g, token) ==> (g in a <==> g in b)
    ensures Decide(Render(a), token, path).Disallowed? <==> Decide(Render(b), token, path).Disallowed?
  {
    FileDecides(a, token, path);
    FileDecides(b, token, path);
  }

  /** Two groups whose lines run together: the first has no directives. */
  function Merged(g: Group, next: Group): Group { Group(g.agents + next.agents, next.rules) }

  lemma {:induction false} RenderConcat(a: seq<Group>, b: seq<Group>)
    ensures Render(a + b) == Render(a) + Render(b)
  {
    if a == [] {
      assert a + b == b;
    } else {
      assert (a + b)[1..] == a[1..] + b;
      RenderConcat(a[1..], b);
    }
  }

  lemma RunTogether(g: Group, next: Group, post: seq<Group>)
    requires g.rules == []
    ensures Render([g] + ([next] + post)) == Render([Merged(g, next)] + post)
  {
    assert ([g] + ([next] + post))[1..] == [next] + post;
    assert ([next] + post)[1..] == post && ([Merged(g, next)] + post)[1..] == post;
    assert AgentLines(g.agents) + AgentLines(next.agents) == AgentLines(g.agents + next.agents);
  }

  /** Every group has directives. */
  ghost predicate Closed(groups: seq<Group>)
  {
    forall i :: 0 <= i < |groups| ==> IsGroup(groups[i]) && groups[i].rules != []
  }

  /** Moving g behind the groups that follow it never changes a decision. */
  ghost predicate Movable(g: Group, token: string)
  {
    forall pre, post, path :: Closed(pre) && Closed(post) ==>
      (Decide(Render(pre + ([g] + post)), token, path).Disallowed? <==> Decide(Render(pre + (post + [g])), token, path).Disallowed?)
  }

  lemma MergedDecides(g: Group, next: Group, token: string)
    requires !Applies(g, token)
    ensures Applies(Merged(g, next), token) <==> Applies(next, token)
  {
    assert forall a :: a in Merged(g, next).agents <==> a in g.agents || a in next.agents;
  }

  lemma HarmlessMove(g: Group, token: string, pre: seq<Group>, post: seq<Group>, path: string)
    requires IsGroup(g) && (g.rules != [] || !Applies(g, token)) && Closed(pre) && Closed(post)
    ensures Decide(Render(pre + ([g] + post)), token, path).Disallowed? <==> Decide(Render(pre + (post + [g])), token, path).Disallowed?
  {
    if g.rules != [] || post == [] {
      OnlyOurGroupsMatter(pre + ([g] + post), pre + (post + [g]), token, path);
    } else {
      var next, later := post[0], post[1..];
      var m := Merged(g, next);
      assert post == [next] + later;
      RunTogether(g, next, later);
      RenderConcat(pre, [g] + post);
      RenderConcat(pre, [m] + later);
      assert IsGroup(m) by { assert m.agents[0] == g.agents[0]; }
      FileDecides(pre + ([m] + later), token, path);
      FileDecides(pre + (post + [g]), token, path);
      MergedDecides(g, next, token);
      assert RuledOut(pre + ([m] + later), token, path) <==> RuledOut(pre + (post + [g]), token, path) by {
        SameRuling(pre, m, next, later, g, token, path);
      }
    }
  }

  lemma SameRuling(pre: seq<Group>, m: Group, next: Group, later: seq<Group>, g: Group, token: string, path: string)
    requires m.rules == next.rules && (Applies(m, token) <==> Applies(next, token)) && !Applies(g, token)
    ensures RuledOut(pre + ([m] + later), token, path) <==> RuledOut(pre + (([next] + later) + [g]), token, path)
  {
    var a, b := pre + ([m] + later), pre + (([next] + later) + [g]);
    if x, v :| x in a && Applies(x, token) && v != [] && Disallow(v) in x.rules && v <= path {
      assert (if x == m && x !in pre && x !in later then next else x) in b;
    }
    if x, v :| x in b && Applies(x, token) && v != [] && Disallow(v) in x.rules && v <= path {
      assert (if x == next && x !in pre && x !in later then m else x) in a;
    }
  }

  /** A group can be moved about freely exactly when it has a directive of its
      own or does not name us: a bare group naming us, moved before another,
      takes over that group's rules. */
  lemma MovableIff(g: Group, token: string)
    requires IsGroup(g) && token != []
    ensures Movable(g, token) <==> g.rules != [] || !Applies(g, token)
  {
    if g.rules != [] || !Applies(g, token) {
      forall pre, post, path | Closed(pre) && Closed(post)
        ensures Decide(Render(pre + ([g] + post)), token, path).Disallowed? <==> Decide(Render(pre + (post + [g])), token, path).Disallowed?
      {
        HarmlessMove(g, token, pre, post, path);
      }
    } else {
      var other := Group([token + "-other"], [Disallow("/")]);
      StrangerRule(g, other, token);
      assert Closed([]) && Closed([other]);
      assert !(Decide(Render([] + ([g] + [other])), token, "/").Disallowed? <==> Decide(Render([] + ([other] + [g])), token, "/").Disallowed?);
    }
  }

  lemma StrangerRule(g: Group, other: Group, token: string)
    requires IsGroup(g) && g.rules == [] && Applies(g, token)
    requires token != [] && other == Group([token + "-other"], [Disallow("/")])
    ensures Decide(Render([] + ([g] + [other])), token, "/").Disallowed?
    ensures !Decide(Render([] + ([other] + [g])), token, "/").Disallowed?
  {
    StrangerTakenOver(g, other, token);
    StrangerApart(g, other, token);
  }

  /** In front, the bare group merges with the stranger's. */
  lemma StrangerTakenOver(g: Group, other: Group, token: string)
    requires IsGroup(g) && g.rules == [] && Applies(g, token)
    requires other == Group([token + "-other"], [Disallow("/")])
    ensures Decide(Render([] + ([g] + [other])), token, "/").Disallowed?
  {
    var m := Merged(g, other);
    assert [other] == [other] + [];
    RunTogether(g, other, []);
    assert [m] + [] == [m] && [] + ([g] + [other]) == [g] + ([other] + []);
    assert IsGroup(m) by { assert m.agents[0] == g.agents[0]; }
    assert Applies(m, token) by { var a :| a in g.agents && NamesUs(a, token); assert a in m.agents; }
    FileDecides([m], token, "/");
    assert RuledOut([m], token, "/") by { assert m in [m] && Disallow("/") in m.rules; }
  }

  /** Behind, it rules nothing out, and the stranger's group is not ours. */
  lemma StrangerApart(g: Group, other: Group, token: string)
    requires IsGroup(g) && g.rules == [] && token != [] && other == Group([token + "-other"], [Disallow("/")])
    ensures !Decide(Render([] + ([other] + [g])), token, "/").Disallowed?
  {
    assert [] + ([other] + [g]) == [other, g];
    FileDecides([other, g], token, "/");
    assert !Applies(other, token) by {
      assert |Text.ToLower(token + "-other")| != |Text.ToLower(token)|;
      assert |token + "-other"| > 1;
    }
  }
}
