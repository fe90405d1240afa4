/** robots.txt as text (crates/probe/src/robots.rs): how the lines of a file may be
    spelled, with comments, spaces and blank lines, without changing what it says. */
module RobotsText {
  import opened Common
  import opened Robots
  import Text

  // ---- One line ------------------------------------------------------------------------

  predicate Blank(s: string) { forall i :: 0 <= i < |s| ==> Text.IsWhitespace(s[i]) }

  /** s is t with white space around it. */
  ghost predicate Padded(s: string, t: string)
  {
    Text.Tight(t) && exists a, b :: Blank(a) && Blank(b) && s == a + t + b
  }

  /** What stands before the first comment mark. */
  ghost predicate Content(text: string, c: string)
  {
    '#' !in c && (text == c || exists comment :: text == c + ['#'] + comment)
  }

  /** c is a key, a colon and a value, each with white space around it. */
  ghost predicate Entry(c: string, key: string, value: string)
  {
    exists k, v :: c == k + [':'] + v && ':' !in k && Padded(k, key) && Padded(v, value)
  }

  ghost predicate Directive(c: string, name: string, value: string)
  {
    exists key :: Entry(c, key, value) && Text.EqIgnoreCase(key, name)
  }

  ghost predicate OtherEntry(c: string)
  {
    exists key, value :: Entry(c, key, value) && !Text.EqIgnoreCase(key, "user-agent") && !Text.EqIgnoreCase(key, "disallow")
  }

  /** This text says this line. */
  ghost predicate Spells(text: string, line: Line)
  {
    exists c :: Content(text, c) && Says(c, line)
  }

  ghost predicate Says(c: string, line: Line)
  {
    match line
    case Nothing => ':' !in c
    case UserAgent(name) => Directive(c, "user-agent", name)
    case Disallow(path) => Directive(c, "disallow", path)
    case OtherDirective => OtherEntry(c)
  }

  lemma BlankMore(c: char, s: string)
    requires Text.IsWhitespace(c) && Blank(s)
    ensures Blank([c] + s) && Blank(s + [c])
  {
  }

  lemma {:induction false} TrimStartPads(s: string) returns (a: string)
    ensures Blank(a) && s == a + Text.TrimStart(s)
  {
    if s == [] || !Text.IsWhitespace(s[0]) { return []; }
    var rest := TrimStartPads(s[1..]);
    BlankMore(s[0], rest);
    a := [s[0]] + rest;
    Regroup([s[0]], rest, Text.TrimStart(s[1..]));
  }

  lemma {:induction false} TrimEndPads(s: string) returns (b: string)
    ensures Blank(b) && s == Text.TrimEnd(s) + b
  {
    if s == [] || !Text.IsWhitespace(s[|s| - 1]) { return []; }
    var rest := TrimEndPads(s[..|s| - 1]);
    BlankMore(s[|s| - 1], rest);
    b := rest + [s[|s| - 1]];
    assert s == s[..|s| - 1] + [s[|s| - 1]];
  }

  lemma {:induction false} TrimStartPadded(a: string, t: string)
    requires Blank(a) && (t == [] || !Text.IsWhitespace(t[0]))
    ensures Text.TrimStart(a + t) == t
  {
    if a == [] {
      assert a + t == t;
    } else {
      assert (a + t)[1..] == a[1..] + t;
      TrimStartPadded(a[1..], t);
    }
  }

  lemma {:induction false} TrimEndPadded(t: string, b: string)
    requires Blank(b) && (t == [] || !Text.IsWhitespace(t[|t| - 1]))
    ensures Text.TrimEnd(t + b) == t
  {
    if b == [] {
      assert t + b == t;
    } else {
      assert (t + b)[..|t + b| - 1] == t + b[..|b| - 1];
      TrimEndPadded(t, b[..|b| - 1]);
    }
  }

  lemma {:induction false} BlankTrimmed(s: string)
    requires Blank(s)
    ensures Text.TrimStart(s) == []
  {
    if s != [] { BlankTrimmed(s[1..]); }
  }

  /** Trimming takes off the white space around, all of it and nothing else. */
  lemma TrimIff(s: string, t: string)
    ensures Text.Trim(s) == t <==> Padded(s, t)
  {
    if Text.Trim(s) == t {
      var a := TrimStartPads(s);
      var b := TrimEndPads(Text.TrimStart(s));
      Text.TrimIsTight(s);
      assert s == a + t + b;
    }
    if Padded(s, t) {
      var a, b :| Blank(a) && Blank(b) && s == a + t + b;
      if t == [] {
        assert a + t + b == a + b && Blank(a + b);
        BlankTrimmed(s);
      } else {
        assert s == a + (t + b) && (t + b)[0] == t[0];
        TrimStartPadded(a, t + b);
        TrimEndPadded(t, b);
      }
    }
  }

  /** What stands around the colon can be trimmed before or after it is found. */
  lemma SplitTrimmed(c: string)
    requires ':' in c
    ensures var (k, v) := Text.SplitOnce(c, ':').value;
      && Text.SplitOnce(Text.Trim(c), ':').Some?
      && var (k', v') := Text.SplitOnce(Text.Trim(c), ':').value;
         Text.Trim(k') == Text.Trim(k) && Text.Trim(v') == Text.Trim(v)
  {
    var (k, v) := Text.SplitOnce(c, ':').value;
    SplitParts(c, k, v);
    var a := TrimStartPads(k);
    var b := TrimEndPads(v);
    Text.TrimStartStops(k);
    LastNotBlank(v);
    SplitPadded(c, k, v, a, Text.TrimStart(k), Text.TrimEnd(v), b);
  }

  lemma SplitParts(c: string, k: string, v: string)
    requires Text.SplitOnce(c, ':') == Some((k, v))
    ensures c == k + [':'] + v && ':' !in k
  {
  }

  lemma SplitPadded(c: string, k: string, v: string, a: string, k': string, v': string, b: string)
    requires c == k + [':'] + v && ':' !in k && k == a + k' && v == v' + b && Blank(a) && Blank(b)
    requires k' == [] || !Text.IsWhitespace(k'[0])
    requires v' == [] || !Text.IsWhitespace(v'[|v'| - 1])
    ensures Text.SplitOnce(Text.Trim(c), ':') == Some((k', v'))
    ensures Text.Trim(k') == Text.Trim(k) && Text.Trim(v') == Text.Trim(v)
  {
    TrimmedAround(c, a, k', v', b);
    Text.SplitOnceJoined(k', ':', v');
    assert k == a + k' + [] && v == [] + v' + b;
    TrimPads(k, a, k', []);
    TrimPads(v, [], v', b);
  }

  lemma TrimmedAround(c: string, a: string, k: string, v: string, b: string)
    requires Blank(a) && Blank(b) && c == (a + k) + [':'] + (v + b)
    requires k == [] || !Text.IsWhitespace(k[0])
    requires v == [] || !Text.IsWhitespace(v[|v| - 1])
    ensures Text.Trim(c) == k + [':'] + v
  {
    var inner := k + [':'] + v;
    assert c == a + inner + b;
    assert Text.Tight(inner);
    TrimIff(c, inner);
  }

  lemma {:induction false} LastNotBlank(v: string)
    ensures Text.TrimEnd(v) == [] || !Text.IsWhitespace(Text.TrimEnd(v)[|Text.TrimEnd(v)| - 1])
  {
    if v != [] && Text.IsWhitespace(v[|v| - 1]) { LastNotBlank(v[..|v| - 1]); }
  }

  /** White space around a text does not show once it is trimmed. */
  lemma TrimPads(s: string, a: string, t: string, b: string)
    requires s == a + t + b && Blank(a) && Blank(b)
    ensures Text.Trim(t) == Text.Trim(s)
  {
    var inner := Text.Trim(t);
    TrimIff(t, inner);
    var x, y :| Blank(x) && Blank(y) && t == x + inner + y;
    assert s == (a + x) + inner + (y + b) && Blank(a + x) && Blank(y + b);
    assert Padded(s, inner);
    TrimIff(s, inner);
  }

  /** What a line says, once its comment is gone. */
  lemma ClassifyContent(text: string)
    ensures var c := StripComment(text);
      Classify(text) == match Text.SplitOnce(c, ':')
        case None => Nothing
        case Some((k, v)) =>
          if Text.EqIgnoreCase(Text.Trim(k), "user-agent") then UserAgent(Text.Trim(v))
          else if Text.EqIgnoreCase(Text.Trim(k), "disallow") then Disallow(Text.Trim(v))
          else OtherDirective
  {
    var c := StripComment(text);
    LowerNames();
    if ':' in c {
      SplitTrimmed(c);
    } else {
      var a := TrimStartPads(c);
      var b := TrimEndPads(Text.TrimStart(c));
      assert ':' !in Text.Trim(c);
    }
  }

  lemma LowerNames()
    ensures Text.ToLower("user-agent") == "user-agent" && Text.ToLower("disallow") == "disallow"
  {
  }

  lemma ContentIff(text: string, c: string)
    ensures Content(text, c) <==> c == StripComment(text)
  {
    var i := Text.IndexOf(text, '#');
    if i < |text| { assert text == text[..i] + ['#'] + text[i + 1..]; } else { assert text[..i] == text; }
    if comment :| '#' !in c && text == c + ['#'] + comment {
      assert text[|c|] == '#' && forall j :: 0 <= j < |c| ==> text[j] == c[j];
      assert i == |c|;
    }
    if '#' !in c && text == c { assert i == |text|; }
  }

  lemma EntryIff(c: string, key: string, value: string)
    ensures Entry(c, key, value) <==>
      Text.SplitOnce(c, ':').Some? && var (k, v) := Text.SplitOnce(c, ':').value; Text.Trim(k) == key && Text.Trim(v) == value
  {
    if Text.SplitOnce(c, ':').Some? {
      var (k, v) := Text.SplitOnce(c, ':').value;
      assert c == k + [':'] + v && ':' !in k;
      TrimIff(k, key);
      TrimIff(v, value);
    }
    if k, v :| c == k + [':'] + v && ':' !in k && Padded(k, key) && Padded(v, value) {
      Text.SplitOnceJoined(k, ':', v);
      TrimIff(k, key);
      TrimIff(v, value);
    }
  }

  /** The parser reads exactly what the text spells: the comment is cut off, the key
      is read in any case, and spaces around key and value do not count. */
  lemma ClassifyIff(text: string, line: Line)
    ensures Classify(text) == line <==> Spells(text, line)
  {
    var c := StripComment(text);
    ContentIff(text, c);
    ClassifyContent(text);
    forall d | Content(text, d) ensures d == c { ContentIff(text, d); }
    forall key, value ensures Entry(c, key, value) <==>
      Text.SplitOnce(c, ':').Some? && var (k, v) := Text.SplitOnce(c, ':').value; Text.Trim(k) == key && Text.Trim(v) == value
    {
      EntryIff(c, key, value);
    }
    SaysIff(c, line);
  }

  lemma SaysIff(c: string, line: Line)
    requires forall key, value :: Entry(c, key, value) <==>
      Text.SplitOnce(c, ':').Some? && var (k, v) := Text.SplitOnce(c, ':').value; Text.Trim(k) == key && Text.Trim(v) == value
    ensures Says(c, line) <==> line == match Text.SplitOnce(c, ':')
        case None => Nothing
        case Some((k, v)) =>
          if Text.EqIgnoreCase(Text.Trim(k), "user-agent") then UserAgent(Text.Trim(v))
          else if Text.EqIgnoreCase(Text.Trim(k), "disallow") then Disallow(Text.Trim(v))
          else OtherDirective
  {
    if Text.SplitOnce(c, ':').Some? {
      var (k, v) := Text.SplitOnce(c, ':').value;
      assert Entry(c, Text.Trim(k), Text.Trim(v)) && ':' in c;
      assert "user-agent"[0] == 'u' && "disallow"[0] == 'd';
      LowerNames();
    }
  }

  /** A comment behind a line, or on a line of its own, says nothing. */
  lemma CommentSaysNothing(text: string, comment: string)
    requires '#' !in text
    ensures Classify(text + ['#'] + comment) == Classify(text)
    ensures Blank(text) ==> Classify(text) == Nothing
  {
    ContentIff(text + ['#'] + comment, text);
    ContentIff(text, text);
    ClassifyContent(text);
    ClassifyContent(text + ['#'] + comment);
    if Blank(text) { assert ':' !in text; }
  }

  // ---- The whole file ---------------------------------------------------------------------

  function Ended(texts: seq<string>): string
  {
    if texts == [] then [] else texts[0] + ['\n'] + Ended(texts[1..])
  }

  /** The texts of its lines; the last need not be ended. */
  ghost predicate LinesAre(body: string, texts: seq<string>)
  {
    && (forall t :: t in texts ==> '\n' !in t)
    && (body == Ended(texts) || (body != [] && body[|body| - 1] != '\n' && body + ['\n'] == Ended(texts)))
  }

  lemma EndedIsLonger(texts: seq<string>)
    requires texts != []
    ensures |Ended(texts)| > |texts[0]| && Ended(texts)[|texts[0]|] == '\n' && Ended(texts)[..|texts[0]|] == texts[0]
    ensures Ended(texts)[|texts[0]| + 1..] == Ended(texts[1..])
  {
  }

  lemma FirstBreak(body: string, first: string)
    requires '\n' !in first && |body| > |first| && body[..|first|] == first && body[|first|] == '\n'
    ensures Text.IndexOf(body, '\n') == |first|
  {
    assert forall j :: 0 <= j < |first| ==> body[j] == first[j];
  }

  lemma {:induction false} LinesOfEnded(texts: seq<string>)
    requires forall t :: t in texts ==> '\n' !in t
    ensures Lines(Ended(texts)) == texts
  {
    if texts != [] {
      EndedIsLonger(texts);
      FirstBreak(Ended(texts), texts[0]);
      LinesOfEnded(texts[1..]);
    }
  }

  /** A line break at the end of the last line adds no line. */
  lemma {:induction false} LastBreak(body: string)
    requires body != [] && body[|body| - 1] != '\n'
    ensures Lines(body + ['\n']) == Lines(body)
    decreases |body|
  {
    var i, more := Text.IndexOf(body, '\n'), body + ['\n'];
    FirstBreak(more, body[..i]);
    if i < |body| {
      LastBreak(body[i + 1..]);
      assert more[i + 1..] == body[i + 1..] + ['\n'];
    } else {
      assert more[i + 1..] == [];
    }
  }

  lemma LinesAreRead(body: string, texts: seq<string>)
    requires LinesAre(body, texts)
    ensures Lines(body) == texts
  {
    LinesOfEnded(texts);
    if body != Ended(texts) { LastBreak(body); }
  }

  lemma {:induction false} LinesHold(body: string)
    ensures LinesAre(body, Lines(body))
    decreases |body|
  {
    var i := Text.IndexOf(body, '\n');
    if i == |body| {
      if body != [] { assert Ended([body]) == body + ['\n'] + Ended([]); }
    } else {
      var rest := body[i + 1..];
      LinesHold(rest);
      assert body == body[..i] + ['\n'] + rest;
      assert Lines(body)[1..] == Lines(rest);
      assert body + ['\n'] == body[..i] + ['\n'] + (rest + ['\n']);
    }
  }

  /** The file says these lines, one after the other. */
  ghost predicate SpellsFile(body: string, lines: seq<Line>)
  {
    exists texts :: LinesAre(body, texts) && |texts| == |lines| && forall i :: 0 <= i < |lines| ==> Spells(texts[i], lines[i])
  }

  /** The parser reads every file as it is spelled. */
  lemma FileReadIff(body: string, lines: seq<Line>)
    ensures Classified(Lines(body)) == lines <==> SpellsFile(body, lines)
  {
    var texts := Lines(body);
    LinesHold(body);
    if Classified(texts) == lines {
      forall i | 0 <= i < |lines| ensures Spells(texts[i], lines[i]) { ClassifyIff(texts[i], lines[i]); }
    }
    if other :| LinesAre(body, other) && |other| == |lines| && forall i :: 0 <= i < |lines| ==> Spells(other[i], lines[i]) {
      LinesAreRead(body, other);
      forall i | 0 <= i < |lines| ensures Classify(texts[i]) == lines[i] { ClassifyIff(texts[i], lines[i]); }
    }
  }

  /** Round trip through text: whatever the spelling, and whatever comments, blank
      lines and other nonsense stand between, a file made of these groups yields the
      Disallow values of exactly those that name us. */
  lemma TextOfGroups(body: string, lines: seq<Line>, groups: seq<Group>, token: string)
    requires SpellsFile(body, lines) && Meaningful(lines) == Render(groups) && IsFile(groups)
    ensures Collected(Classified(Lines(body)), token, false, false) == Selected(groups, token)
  {
    FileReadIff(body, lines);
    NothingSkipped(lines, token, false, false);
    RenderParses(groups);
    ParserReadsGroups(Render(groups), token);
  }

  /** Files that say the same apart from comments and blank lines decide alike. */
  lemma CommentsIrrelevant(a: string, b: string, la: seq<Line>, lb: seq<Line>, token: string, path: string)
    requires SpellsFile(a, la) && SpellsFile(b, lb) && Meaningful(la) == Meaningful(lb)
    ensures Decide(Classified(Lines(a)), token, path) == Decide(Classified(Lines(b)), token, path)
  {
    FileReadIff(a, la);
    FileReadIff(b, lb);
    NothingSkipped(la, token, false, false);
    NothingSkipped(lb, token, false, false);
  }

  /** A path is ruled out by the text of a file exactly when, spelled somehow in it, a
      group that names us or `*` has a non-empty Disallow value that prefixes the path. */
  lemma TextDecidesIff(body: string, lines: seq<Line>, token: string, path: string)
    requires SpellsFile(body, lines)
    ensures Decide(Classified(Lines(body)), token, path).Disallowed? <==> RuledOut(GroupsOf(Meaningful(lines)), token, path)
  {
    FileReadIff(body, lines);
    LinesDecide(lines, token, path);
  }
}
