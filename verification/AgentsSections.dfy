/** The AGENTS.md filter: sections whose tools an agent lacks are left out of its prompt. */
module AgentsSections {
  import opened Options
  import opened Text

  /** The sections that need a tool, and the tools of which one is enough. */
  function Gate(title: string): Option<seq<string>> {
    match title
    case "Memory pointer" => Some(["memory"])
    case "Authentication \U{2014} `connect_service` triggers" => Some(["connect_service"])
    case "Composing tools \U{2014} write a script when no tool fits" => Some(["execute_code"])
    case "Delegation" => Some(["delegate_task", "spawn_background_task"])
    case "Scheduling reminders \U{2014} `manage_schedule`" => Some(["manage_schedule"])
    case "Error recovery \U{2014} delegate or run a script" =>
      Some(["delegate_task", "spawn_background_task", "execute_code"])
    case "Programmatic tool calling \U{2014} when to reach for it" => Some(["execute_code"])
    case "Skills \U{2014} scan, load, proceed" => Some(["skill_manage"])
    case "Track your work \U{2014} `write_todos`" => Some(["write_todos"])
    case _ => None
  }

  predicate Allowed(tools: set<string>, title: string) {
    match Gate(title)
    case None => true
    case Some(needed) => exists i :: 0 <= i < |needed| && needed[i] in tools
  }

  predicate IsHeading(line: string) { "## " <= line }

  function TitleOf(line: string): string
    requires IsHeading(line)
  {
    Trim(line[3..])
  }

  /** The first section has no title; it holds what precedes the first heading. */
  datatype Section = Section(title: Option<string>, body: seq<string>)

  function Extended(sections: seq<Section>, lines: seq<string>): (r: seq<Section>)
    requires sections != []
    ensures r != []
  {
    var last := sections[|sections| - 1];
    sections[..|sections| - 1] + [last.(body := last.body + lines)]
  }

  function Sections(lines: seq<string>): (r: seq<Section>)
    ensures r != []
  {
    if lines == [] then [Section(None, [])]
    else
      var front, line := Sections(lines[..|lines| - 1]), lines[|lines| - 1];
      if IsHeading(line) then front + [Section(Some(TitleOf(line)), [line])] else Extended(front, [line])
  }

  function Body(s: Section): string { TrimEnd(Join(s.body, "\n")) }

  predicate IsKept(s: Section, tools: set<string>) {
    if s.title.None? then Body(s) != "" else Allowed(tools, s.title.value)
  }

  function Kept(sections: seq<Section>, tools: set<string>): seq<string> {
    if sections == [] then []
    else
      var s := sections[|sections| - 1];
      Kept(sections[..|sections| - 1], tools) + if IsKept(s, tools) then [Body(s)] else []
  }

  function Filter(raw: string, tools: set<string>): string {
    if Trim(raw) == "" then "" else Trim(Join(Kept(Sections(Split(raw, '\n')), tools), "\n\n"))
  }

  lemma SectionsNext(lines: seq<string>, n: nat)
    requires n < |lines|
    ensures var front := Sections(lines[..n]);
            Sections(lines[..n + 1])
            == if IsHeading(lines[n]) then front + [Section(Some(TitleOf(lines[n])), [lines[n]])]
               else Extended(front, [lines[n]])
  {
    hide TitleOf, Extended;
    assert lines[..n + 1][..n] == lines[..n];
  }

  lemma KeptNext(sections: seq<Section>, tools: set<string>, n: nat)
    requires n < |sections|
    ensures Kept(sections[..n + 1], tools)
         == Kept(sections[..n], tools) + if IsKept(sections[n], tools) then [Body(sections[n])] else []
  {
    hide IsKept, Body;
    assert sections[..n + 1][..n] == sections[..n];
  }

  lemma Nothing(tools: set<string>)
    ensures Sections([]) == [Section(None, [])] && Kept([], tools) == []
  {
  }

  method FilterAgentsMdByTools(raw: string, tools: set<string>) returns (out: string)
    ensures out == Filter(raw, tools)
  {
    hide Split, Join, Trim, TrimStart, TrimEnd, Allowed, Sections, Kept;
    if Trim(raw) == "" { return ""; }
    Nothing(tools);
    var lines := Split(raw, '\n');
    var sections := [Section(None, [])];
    for n := 0 to |lines|
      invariant sections == Sections(lines[..n])
    {
      SectionsNext(lines, n);
      var line := lines[n];
      if IsHeading(line) {
        sections := sections + [Section(Some(Trim(line[3..])), [line])];
      } else {
        var last := sections[|sections| - 1];
        sections := sections[..|sections| - 1] + [last.(body := last.body + [line])];
      }
    }
    assert lines[..|lines|] == lines;
    var kept: seq<string> := [];
    for n := 0 to |sections|
      invariant kept == Kept(sections[..n], tools)
    {
      KeptNext(sections, tools, n);
      var sec := sections[n];
      if sec.title.None? {
        var body := TrimEnd(Join(sec.body, "\n"));
        if body != "" {
          kept := kept + [body];
        }
        continue;
      }
      if Allowed(tools, sec.title.value) {
        kept := kept + [TrimEnd(Join(sec.body, "\n"))];
      }
    }
    assert sections[..|sections|] == sections;
    out := Trim(Join(kept, "\n\n"));
  }

  // ---- what is kept, line by line ---------------------------------------------------------------

  function Lines(sections: seq<Section>): seq<string> {
    if sections == [] then [] else Lines(sections[..|sections| - 1]) + sections[|sections| - 1].body
  }

  /** The line begins with two number signs and a blank. */
  predicate StartsSection(line: string) { |line| >= 3 && line[0] == '#' && line[1] == '#' && line[2] == ' ' }

  lemma HeadingIff(line: string)
    ensures IsHeading(line) <==> StartsSection(line)
  {
    if |line| >= 3 {
      assert line[..3] == [line[0], line[1], line[2]];
    }
  }

  ghost predicate StartsNone(lines: seq<string>) { forall i :: 0 <= i < |lines| ==> !StartsSection(lines[i]) }

  /** The lines cut before every heading: a first part without one, then a part for each. */
  ghost predicate CutAtHeadings(lines: seq<string>, sections: seq<Section>) {
    && sections != [] && Lines(sections) == lines
    && sections[0].title == None && StartsNone(sections[0].body)
    && forall i :: 1 <= i < |sections| ==> IsPart(sections[i])
  }

  ghost predicate IsPart(s: Section) {
    && s.body != [] && StartsSection(s.body[0]) && s.title == Some(Trim(s.body[0][3..]))
    && StartsNone(s.body[1..])
  }

  lemma LinesNext(front: seq<Section>, last: Section)
    ensures Lines(front + [last]) == Lines(front) + last.body
  {
    assert (front + [last])[..|front|] == front;
  }

  lemma CutOfNothing()
    ensures CutAtHeadings([], Sections([]))
  {
    Nothing({});
    LinesNext([], Section(None, []));
    assert [] + [Section(None, [])] == [Section(None, [])];
  }

  lemma CutBefore(lines: seq<string>, sections: seq<Section>, line: string)
    requires CutAtHeadings(lines, sections) && |line| >= 3 && StartsSection(line)
    ensures CutAtHeadings(lines + [line], sections + [Section(Some(Trim(line[3..])), [line])])
  {
    hide Trim, StartsSection;
    LinesNext(sections, Section(Some(Trim(line[3..])), [line]));
  }

  lemma CutLater(lines: seq<string>, sections: seq<Section>, line: string)
    requires CutAtHeadings(lines, sections) && !StartsSection(line)
    ensures CutAtHeadings(lines + [line], Extended(sections, [line]))
  {
    hide Trim, StartsSection, Lines;
    var n := |sections| - 1;
    var front, last := sections[..n], sections[n];
    var longer := last.(body := last.body + [line]);
    LinesNext(front, last);
    LinesNext(front, longer);
    assert front + [last] == sections;
    assert last.body != [] ==> (last.body + [line])[1..] == last.body[1..] + [line];
    assert n > 0 ==> IsPart(last);
  }

  lemma {:induction false} SectionsCut(lines: seq<string>)
    ensures CutAtHeadings(lines, Sections(lines))
    decreases |lines|
  {
    hide *;
    if lines == [] {
      CutOfNothing();
    } else {
      var n := |lines| - 1;
      var front, line := lines[..n], lines[n];
      SectionsCut(front);
      HeadingIff(line);
      SectionsNext(lines, n);
      assert lines[..n + 1] == lines && lines == front + [line];
      if IsHeading(line) {
        TitleIs(line);
        CutBefore(front, Sections(front), line);
      } else {
        CutLater(front, Sections(front), line);
      }
    }
  }

  lemma TitleIs(line: string)
    requires IsHeading(line)
    ensures |line| >= 3 && TitleOf(line) == Trim(line[3..])
  {
  }

  lemma MemoryGate(tools: set<string>)
    ensures Allowed(tools, "Memory pointer") <==> "memory" in tools
  {
    AllowedByGate(tools, "Memory pointer");
    hide Allowed;
  }

  lemma AuthenticationGate(tools: set<string>)
    ensures Allowed(tools, "Authentication \U{2014} `connect_service` triggers") <==> "connect_service" in tools
  {
    AllowedByGate(tools, "Authentication \U{2014} `connect_service` triggers");
    hide Allowed;
  }

  lemma ComposingGate(tools: set<string>)
    ensures Allowed(tools, "Composing tools \U{2014} write a script when no tool fits") <==> "execute_code" in tools
  {
    AllowedByGate(tools, "Composing tools \U{2014} write a script when no tool fits");
    hide Allowed;
  }

  lemma DelegationGate(tools: set<string>)
    ensures Allowed(tools, "Delegation") <==> "delegate_task" in tools || "spawn_background_task" in tools
  {
    AllowedByGate(tools, "Delegation");
    hide Allowed;
  }

  lemma SchedulingGate(tools: set<string>)
    ensures Allowed(tools, "Scheduling reminders \U{2014} `manage_schedule`") <==> "manage_schedule" in tools
  {
    AllowedByGate(tools, "Scheduling reminders \U{2014} `manage_schedule`");
    hide Allowed;
  }

  lemma RecoveryGate(tools: set<string>)
    ensures Allowed(tools, "Error recovery \U{2014} delegate or run a script") <==>
              "delegate_task" in tools || "spawn_background_task" in tools || "execute_code" in tools
  {
    AllowedByGate(tools, "Error recovery \U{2014} delegate or run a script");
    hide Allowed;
  }

  lemma ProgrammaticGate(tools: set<string>)
    ensures Allowed(tools, "Programmatic tool calling \U{2014} when to reach for it") <==> "execute_code" in tools
  {
    AllowedByGate(tools, "Programmatic tool calling \U{2014} when to reach for it");
    hide Allowed;
  }

  lemma SkillsGate(tools: set<string>)
    ensures Allowed(tools, "Skills \U{2014} scan, load, proceed") <==> "skill_manage" in tools
  {
    AllowedByGate(tools, "Skills \U{2014} scan, load, proceed");
    hide Allowed;
  }

  lemma TodosGate(tools: set<string>)
    ensures Allowed(tools, "Track your work \U{2014} `write_todos`") <==> "write_todos" in tools
  {
    AllowedByGate(tools, "Track your work \U{2014} `write_todos`");
    hide Allowed;
  }

  /** The titles that need a tool, and which; where there are several, one is enough. */
  lemma GatedTitles(tools: set<string>)
    ensures Allowed(tools, "Memory pointer") <==> "memory" in tools
    ensures Allowed(tools, "Authentication \U{2014} `connect_service` triggers") <==> "connect_service" in tools
    ensures Allowed(tools, "Composing tools \U{2014} write a script when no tool fits") <==> "execute_code" in tools
    ensures Allowed(tools, "Delegation") <==> "delegate_task" in tools || "spawn_background_task" in tools
    ensures Allowed(tools, "Scheduling reminders \U{2014} `manage_schedule`") <==> "manage_schedule" in tools
    ensures Allowed(tools, "Error recovery \U{2014} delegate or run a script") <==>
              "delegate_task" in tools || "spawn_background_task" in tools || "execute_code" in tools
    ensures Allowed(tools, "Programmatic tool calling \U{2014} when to reach for it") <==> "execute_code" in tools
    ensures Allowed(tools, "Skills \U{2014} scan, load, proceed") <==> "skill_manage" in tools
    ensures Allowed(tools, "Track your work \U{2014} `write_todos`") <==> "write_todos" in tools
  {
    hide *;
    MemoryGate(tools);
    AuthenticationGate(tools);
    ComposingGate(tools);
    DelegationGate(tools);
    SchedulingGate(tools);
    RecoveryGate(tools);
    ProgrammaticGate(tools);
    SkillsGate(tools);
    TodosGate(tools);
  }

  /** Every other section is for every agent. */
  lemma OthersAreFree(tools: set<string>, title: string)
    requires title != "Memory pointer" && title != "Authentication \U{2014} `connect_service` triggers"
    requires title != "Skills \U{2014} scan, load, proceed" && title != "Delegation"
    requires title != "Composing tools \U{2014} write a script when no tool fits"
    requires title != "Error recovery \U{2014} delegate or run a script"
    requires title != "Programmatic tool calling \U{2014} when to reach for it"
    requires title != "Scheduling reminders \U{2014} `manage_schedule`"
    requires title != "Track your work \U{2014} `write_todos`"
    ensures Allowed(tools, title)
  {
    AllowedByGate(tools, title);
    hide Allowed;
  }

  lemma AllowedByGate(tools: set<string>, title: string)
    ensures Gate(title).None? ==> Allowed(tools, title)
    ensures Gate(title).Some? && |Gate(title).value| == 1 ==> (Allowed(tools, title) <==> Gate(title).value[0] in tools)
    ensures Gate(title).Some? && |Gate(title).value| == 2 ==>
              (Allowed(tools, title) <==> Gate(title).value[0] in tools || Gate(title).value[1] in tools)
    ensures Gate(title).Some? && |Gate(title).value| == 3 ==>
              (Allowed(tools, title)
               <==> Gate(title).value[0] in tools || Gate(title).value[1] in tools || Gate(title).value[2] in tools)
  {
    hide Gate;
  }

  ghost predicate Increasing(picked: seq<nat>, n: nat) {
    && (forall k :: 0 <= k < |picked| ==> picked[k] < n)
    && forall j, k :: 0 <= j < k < |picked| ==> picked[j] < picked[k]
  }

  /** The texts of the picked sections. */
  ghost predicate TextsOf(sections: seq<Section>, picked: seq<nat>, texts: seq<string>)
    requires Increasing(picked, |sections|)
  {
    |texts| == |picked| && forall k :: 0 <= k < |picked| ==> texts[k] == TrimEnd(Join(sections[picked[k]].body, "\n"))
  }

  ghost predicate PicksAllowed(sections: seq<Section>, picked: seq<nat>, tools: set<string>) {
    forall i :: 0 <= i < |sections| ==>
      (i in picked <==> if sections[i].title.None? then TrimEnd(Join(sections[i].body, "\n")) != ""
                        else Allowed(tools, sections[i].title.value))
  }

  /** The last section is picked, or not, behind those picked before. */
  lemma PickNext(front: seq<Section>, s: Section, before: seq<nat>, texts: seq<string>, tools: set<string>)
    requires Increasing(before, |front|) && PicksAllowed(front, before, tools) && TextsOf(front, before, texts)
    ensures var picked, more := if IsKept(s, tools) then before + [|front|] else before,
                                if IsKept(s, tools) then texts + [Body(s)] else texts;
            && Increasing(picked, |front + [s]|) && PicksAllowed(front + [s], picked, tools)
            && TextsOf(front + [s], picked, more)
  {
    hide Allowed, TrimEnd, Join;
    var all := front + [s];
    var picked := if IsKept(s, tools) then before + [|front|] else before;
    assert forall i :: 0 <= i < |front| ==> all[i] == front[i];
    forall i | 0 <= i < |all| ensures i in picked <==> if i < |front| then i in before else IsKept(s, tools) {}
  }

  lemma PickNone(tools: set<string>)
    ensures Increasing([], 0) && PicksAllowed([], [], tools) && TextsOf([], [], Kept([], tools))
  {
  }

  lemma {:induction false} KeptArePicked(sections: seq<Section>, tools: set<string>) returns (picked: seq<nat>)
    ensures Increasing(picked, |sections|) && PicksAllowed(sections, picked, tools)
    ensures TextsOf(sections, picked, Kept(sections, tools))
    decreases |sections|
  {
    hide *;
    if sections == [] {
      picked := [];
      PickNone(tools);
    } else {
      var n := |sections| - 1;
      var front, s := sections[..n], sections[n];
      picked := KeptArePicked(front, tools);
      PickNext(front, s, picked, Kept(front, tools), tools);
      KeptNext(sections, tools, n);
      assert sections[..n + 1] == sections && sections == front + [s];
      assert Kept(front, tools) + [] == Kept(front, tools);
      if IsKept(s, tools) {
        picked := picked + [n];
      }
    }
  }

  /**
   What the filter keeps, for every document.  Its lines are cut before every heading; of the parts those
   whose title needs no tool, or one that is there, are kept in order, and what precedes the first heading
   is kept unless it is blank.
   */
  lemma FilterKeeps(raw: string, tools: set<string>)
    returns (sections: seq<Section>, picked: seq<nat>, texts: seq<string>)
    ensures CutAtHeadings(Split(raw, '\n'), sections)
    ensures Increasing(picked, |sections|) && PicksAllowed(sections, picked, tools) && TextsOf(sections, picked, texts)
    ensures Filter(raw, tools) == if Trim(raw) == "" then "" else Trim(Join(texts, "\n\n"))
  {
    hide Split, Sections, CutAtHeadings, PicksAllowed, TextsOf, Trim, Join;
    sections := Sections(Split(raw, '\n'));
    SectionsCut(Split(raw, '\n'));
    picked := KeptArePicked(sections, tools);
    texts := Kept(sections, tools);
  }

  // ---- the shape of sections --------------------------------------------------------------------

  ghost predicate NoHeading(lines: seq<string>) { forall i :: 0 <= i < |lines| ==> !IsHeading(lines[i]) }

  ghost predicate IsBlock(lines: seq<string>) { lines != [] && IsHeading(lines[0]) && NoHeading(lines[1..]) }

  ghost predicate Titled(s: Section) {
    s.title.Some? && IsBlock(s.body) && s.title.value == TitleOf(s.body[0]) && NoBreaks(s.body)
  }

  ghost predicate WellFormed(sections: seq<Section>) {
    && sections != [] && sections[0].title.None? && NoHeading(sections[0].body) && NoBreaks(sections[0].body)
    && forall i :: 1 <= i < |sections| ==> Titled(sections[i])
  }

  lemma PlainLineKeeps(sections: seq<Section>, line: string)
    requires WellFormed(sections) && !IsHeading(line) && '\n' !in line
    ensures WellFormed(Extended(sections, [line]))
  {
    hide TitleOf, IsHeading;
    var last := sections[|sections| - 1];
    if |sections| > 1 {
      assert Titled(last);
      assert (last.body + [line])[1..] == last.body[1..] + [line];
    }
  }

  lemma {:induction false} SectionsAreWellFormed(lines: seq<string>)
    requires NoBreaks(lines)
    ensures WellFormed(Sections(lines))
    decreases |lines|
  {
    if lines != [] {
      var line := lines[|lines| - 1];
      SectionsAreWellFormed(lines[..|lines| - 1]);
      hide TitleOf, IsHeading, Extended;
      if !IsHeading(line) {
        PlainLineKeeps(Sections(lines[..|lines| - 1]), line);
      }
    }
  }

  lemma ExtendedTwice(s: seq<Section>, a: seq<string>, b: seq<string>)
    requires s != []
    ensures Extended(Extended(s, a), b) == Extended(s, a + b) && Extended(s, []) == s
  {
    var last := s[|s| - 1];
    assert last.body + [] == last.body && last.(body := last.body) == last;
    assert (last.body + a) + b == last.body + (a + b);
  }

  lemma {:induction false} SectionsOfPlain(before: seq<string>, lines: seq<string>)
    requires NoHeading(lines)
    ensures Sections(before + lines) == Extended(Sections(before), lines)
    decreases |lines|
  {
    hide TitleOf, IsHeading, Extended;
    if lines == [] {
      assert before + lines == before;
      ExtendedTwice(Sections(before), [], []);
    } else {
      var front, line := lines[..|lines| - 1], lines[|lines| - 1];
      SectionsOfPlain(before, front);
      assert (before + lines)[..|before + lines| - 1] == before + front;
      assert front + [line] == lines;
      ExtendedTwice(Sections(before), front, [line]);
    }
  }

  lemma {:induction false} SectionsOfBlock(before: seq<string>, lines: seq<string>)
    requires IsBlock(lines)
    ensures Sections(before + lines) == Sections(before) + [Section(Some(TitleOf(lines[0])), lines)]
  {
    hide TitleOf, IsHeading;
    var head := before + [lines[0]];
    assert head[..|head| - 1] == before;
    SectionsOfPlain(head, lines[1..]);
    assert before + lines == head + lines[1..];
    assert [lines[0]] + lines[1..] == lines;
  }

  lemma {:induction false} KeptOfAppend(a: seq<Section>, b: seq<Section>, tools: set<string>)
    ensures Kept(a + b, tools) == Kept(a, tools) + Kept(b, tools)
    decreases |b|
  {
    hide IsKept, Body;
    if b == [] {
      assert a + b == a;
    } else {
      assert (a + b)[..|a + b| - 1] == a + b[..|b| - 1];
      KeptOfAppend(a, b[..|b| - 1], tools);
    }
  }

  // ---- joined texts -----------------------------------------------------------------------------

  ghost predicate Solid(texts: seq<string>) {
    forall i :: 0 <= i < |texts| ==> texts[i] != "" && IsTrimmed(texts[i])
  }

  lemma JoinNext(texts: seq<string>, x: string)
    ensures Join(texts + [x], "\n\n") == if texts == [] then x else Join(texts, "\n\n") + "\n\n" + x
  {
    if texts == [] {
      assert texts + [x] == [x];
    } else {
      JoinOfAppend(texts, [x], "\n\n");
    }
  }

  lemma TrimmedAtBothEnds(j: string, x: string)
    requires j != "" && IsTrimmed(j) && x != "" && IsTrimmed(x)
    ensures IsTrimmed(j + "\n\n" + x)
  {
    hide IsSpace;
    var t := j + "\n\n" + x;
    assert t[0] == j[0] && t[|t| - 1] == x[|x| - 1];
  }

  lemma {:induction false} JoinOfSolid(texts: seq<string>)
    requires Solid(texts)
    ensures IsTrimmed(Join(texts, "\n\n")) && (texts != [] ==> Join(texts, "\n\n") != "")
    ensures |Join(texts, "\n\n")| == if texts == [] then 0 else Weight(texts) - 2
    decreases |texts|
  {
    if texts != [] {
      hide IsTrimmed, Join, Weight;
      var front, x := texts[..|texts| - 1], texts[|texts| - 1];
      JoinOfSolid(front);
      JoinNext(front, x);
      WeightNext(front, x);
      WeightOfNone(front);
      assert front + [x] == texts;
      if front != [] {
        TrimmedAtBothEnds(Join(front, "\n\n"), x);
      }
    }
  }

  lemma WeightOfNone(texts: seq<string>)
    ensures texts == [] ==> Weight(texts) == 0
  {
  }

  function Weight(texts: seq<string>): nat {
    if texts == [] then 0 else Weight(texts[..|texts| - 1]) + |texts[|texts| - 1]| + 2
  }

  lemma WeightNext(texts: seq<string>, x: string)
    ensures Weight(texts + [x]) == Weight(texts) + |x| + 2
  {
    assert (texts + [x])[..|texts|] == texts;
  }

  /** Lengthening the last text lengthens the join. */
  lemma JoinWithLonger(front: seq<string>, x: string, more: string)
    ensures Join(front + [x + more], "\n\n") == Join(front + [x], "\n\n") + more
  {
    hide Join;
    JoinNext(front, x);
    JoinNext(front, x + more);
    var j := Join(front, "\n\n") + "\n\n";
    assert j + (x + more) == (j + x) + more;
  }

  // ---- the first pass ---------------------------------------------------------------------------

  /** A heading with nothing to say: all that trimming leaves of it. */
  const BARE := "##"

  function FirstLine(text: string): string { Split(text, '\n')[0] }

  /** A section's text as a later pass reads it: a heading and plain lines, or a bare heading. */
  ghost predicate IsAtom(text: string) {
    text != "" && IsTrimmed(text) && NoHeading(Split(text, '\n')[1..])
  }

  ghost predicate IsSectionText(text: string, title: string) {
    && IsAtom(text)
    && (if IsHeading(FirstLine(text)) then title == TitleOf(FirstLine(text)) else text == BARE && title == "")
  }

  /** Putting text behind the last line. */
  function Continued(lines: seq<string>, more: seq<string>): seq<string>
    requires lines != [] && more != []
  {
    lines[..|lines| - 1] + [lines[|lines| - 1] + more[0]] + more[1..]
  }

  lemma ContinuedTail(first: string, c: char, lines: seq<string>, more: seq<string>)
    requires lines != [] && more != []
    ensures Continued([first] + lines, more) == [first] + Continued(lines, more)
    ensures var r := Continued(lines, more);
            Continued([[c] + lines[0]] + lines[1..], more) == [[c] + r[0]] + r[1..]
  {
    assert ([first] + lines)[..|lines|] == [first] + lines[..|lines| - 1];
    var grown := [[c] + lines[0]] + lines[1..];
    if |lines| == 1 {
      assert [c] + (lines[0] + more[0]) == ([c] + lines[0]) + more[0];
    } else {
      assert grown[..|lines| - 1] == [[c] + lines[0]] + lines[1..|lines| - 1];
    }
  }

  lemma {:induction false} SplitOfPrefix(a: string, b: string, sep: char)
    ensures Split(a + b, sep) == Continued(Split(a, sep), Split(b, sep))
  {
    var y := Split(b, sep);
    if a == "" {
      assert a + b == b && "" + y[0] == y[0];
      assert [y[0]] + y[1..] == y;
    } else {
      assert (a + b)[0] == a[0] && (a + b)[1..] == a[1..] + b;
      SplitOfPrefix(a[1..], b, sep);
      ContinuedTail("", a[0], Split(a[1..], sep), y);
      hide Continued;
    }
  }

  lemma {:induction false} FirstOfSpace(b: string)
    requires AllSpace(b)
    ensures AllSpace(Split(b, '\n')[0])
  {
    hide IsSpace;
    if b != "" { FirstOfSpace(b[1..]); }
  }

  lemma TrimmedHeading(line: string, ws: string)
    requires IsHeading(line + ws) && AllSpace(ws) && IsTrimmed(line)
    ensures if IsHeading(line) then TitleOf(line + ws) == TitleOf(line) else line == BARE && TitleOf(line + ws) == ""
  {
    if |line| >= 3 {
      assert (line + ws)[..3] == line[..3];
      assert (line + ws)[3..] == line[3..] + ws;
      var a, b := TrimSplits(line[3..]);
      var m := Trim(line[3..]);
      assert line[3..] + ws == a + m + (b + ws);
      TrimOf(a, m, b + ws);
    } else {
      assert (line + ws)[0] == '#' && (line + ws)[1] == '#';
      assert line == BARE;
      assert (line + ws)[3..] == ws[1..];
      TrimOf(ws[1..], "", "");
      assert ws[1..] + "" + "" == ws[1..];
    }
  }

  /** The lines of a section's text are its body's, but for white space behind the last one. */
  lemma LinesOfText(s: Section) returns (ws: string)
    requires Titled(s)
    ensures AllSpace(ws) && Body(s) != "" && IsTrimmed(Body(s))
    ensures var lines := Split(Body(s), '\n');
            && |lines| <= |s.body| && lines[|lines| - 1] + ws == s.body[|lines| - 1]
            && forall i :: 0 <= i < |lines| - 1 ==> lines[i] == s.body[i]
  {
    var all := Join(s.body, "\n");
    SplitOfJoin(s.body, '\n');
    var b := TrimEndSplits(all);
    FirstOfSpace(b);
    var x := Body(s);
    SplitOfPrefix(x, b, '\n');
    JoinStartsWith(s.body);
    assert all[0] == '#';
    HashIsNoSpace();
    hide IsSpace, TrimEnd, Split, Join;
    ws := Split(b, '\n')[0];
    assert x != "" by { assert (x + b)[0] == '#'; }
    assert x[0] == (x + b)[0];
    var lines := Split(x, '\n');
    assert s.body == Continued(lines, Split(b, '\n'));
  }

  lemma BodyIsSectionText(s: Section)
    requires Titled(s)
    ensures IsSectionText(Body(s), s.title.value)
  {
    var ws := LinesOfText(s);
    var x := Body(s);
    if |Split(x, '\n')| == 1 { OneLineText(x); }
    hide IsSpace, IsTrimmed, Trim, Split, Join, Body;
    var lines := Split(x, '\n');
    forall i | 1 <= i < |lines| ensures !IsHeading(lines[i]) {
      assert s.body[1..][i - 1] == s.body[i];
      assert lines[i] <= s.body[i];
    }
    if |lines| == 1 {
      TrimmedHeading(x, ws);
    }
  }

  lemma HashIsNoSpace()
    ensures !IsSpace('#')
  {
  }

  lemma JoinStartsWith(lines: seq<string>)
    requires lines != []
    ensures lines[0] <= Join(lines, "\n")
  {
  }

  lemma OneLineText(x: string)
    requires |Split(x, '\n')| == 1
    ensures Split(x, '\n')[0] == x
  {
    JoinOfSplit(x, '\n');
  }

  /** The text in front of the first heading, trimmed: no text, or one. */
  function Lead(raw: string): (r: seq<string>)
    ensures |r| <= 1
  {
    var t := Trim(Join(Sections(Split(raw, '\n'))[0].body, "\n"));
    if t == "" then [] else [t]
  }

  /** The sections behind it. */
  function Headed(raw: string): seq<Section> { Sections(Split(raw, '\n'))[1..] }

  /** What the filter keeps, text by text. */
  function Texts(raw: string, tools: set<string>): seq<string> { Lead(raw) + Kept(Headed(raw), tools) }

  ghost predicate AllTitled(sections: seq<Section>) { forall i :: 0 <= i < |sections| ==> Titled(sections[i]) }

  lemma {:induction false} KeptIsSolid(sections: seq<Section>, tools: set<string>)
    requires AllTitled(sections)
    ensures Solid(Kept(sections, tools))
    decreases |sections|
  {
    hide Body, Titled, IsKept;
    if sections != [] {
      KeptIsSolid(sections[..|sections| - 1], tools);
      TitledBodyIsSolid(sections[|sections| - 1]);
    }
  }

  lemma TitledBodyIsSolid(s: Section)
    requires Titled(s)
    ensures Body(s) != "" && IsTrimmed(Body(s))
  {
    BodyIsSectionText(s);
  }

  lemma HeadedIsTitled(raw: string)
    ensures AllTitled(Headed(raw))
  {
    SplitHasNoSeparator(raw, '\n');
    hide Titled;
    SectionsAreWellFormed(Split(raw, '\n'));
  }

  /** Without its surrounding white space a text's end is found by trimming the end alone. */
  lemma TrimEndIsTail(p: string) returns (a: string)
    ensures AllSpace(a) && (if Trim(p) == "" then TrimEnd(p) == "" else TrimEnd(p) == a + Trim(p)) && IsTrimmed(Trim(p))
  {
    var x, b := TrimSplits(p);
    var m := Trim(p);
    a := x;
    if m == "" {
      assert p == "" + (x + b);
      TrimEndOf("", x + b);
    } else {
      TrimEndOf(x + m, b);
    }
  }

  lemma KeptOfOne(s: Section, tools: set<string>)
    ensures Kept([s], tools) == if IsKept(s, tools) then [Body(s)] else []
  {
    hide IsKept, Body;
    assert [s][..0] == [];
  }

  lemma LeadIsSolid(raw: string)
    ensures Solid(Lead(raw))
  {
    var a, b := TrimSplits(Join(Sections(Split(raw, '\n'))[0].body, "\n"));
  }

  /** Of the lead the pass keeps all but the white space behind it; the white space before it goes last. */
  lemma KeptOfAll(raw: string, tools: set<string>) returns (a: string)
    ensures AllSpace(a)
    ensures Kept(Sections(Split(raw, '\n')), tools)
         == (if Lead(raw) == [] then [] else [a + Lead(raw)[0]]) + Kept(Headed(raw), tools)
  {
    SplitHasNoSeparator(raw, '\n');
    SectionsAreWellFormed(Split(raw, '\n'));
    hide TrimEnd, Trim, IsSpace, Split, Join, Sections, Titled, Kept;
    var secs := Sections(Split(raw, '\n'));
    KeptOfAppend([secs[0]], secs[1..], tools);
    assert [secs[0]] + secs[1..] == secs;
    KeptOfOne(secs[0], tools);
    a := TrimEndIsTail(Join(secs[0].body, "\n"));
  }

  lemma TrimOfKept(a: string, lead: seq<string>, rest: seq<string>)
    requires AllSpace(a) && |lead| <= 1 && Solid(lead + rest)
    ensures Trim(Join((if lead == [] then [] else [a + lead[0]]) + rest, "\n\n")) == Join(lead + rest, "\n\n")
  {
    JoinOfSolid(lead + rest);
    hide Trim, IsSpace, Join, Solid, IsTrimmed;
    var out := Join(lead + rest, "\n\n");
    if lead == [] {
      assert lead + rest == [] + rest;
      TrimOfTrimmed(out);
    } else {
      assert lead == [lead[0]];
      JoinWithPrefix(a, lead[0], rest);
      TrimOf(a, out, "");
      assert a + out + "" == a + out;
    }
  }

  lemma TextsAreSolid(raw: string, tools: set<string>)
    ensures Solid(Texts(raw, tools))
  {
    HeadedIsTitled(raw);
    KeptIsSolid(Headed(raw), tools);
    LeadIsSolid(raw);
    hide IsSpace, Lead, Headed, Kept, Titled;
  }

  lemma FirstPassOfText(raw: string, tools: set<string>)
    requires Trim(raw) != ""
    ensures Filter(raw, tools) == Join(Texts(raw, tools), "\n\n")
  {
    TextsAreSolid(raw, tools);
    hide Trim, Split, Join, Sections, Lead, Headed, Kept, Solid;
    var a := KeptOfAll(raw, tools);
    TrimOfKept(a, Lead(raw), Kept(Headed(raw), tools));
  }

  /** What the filter returns, for every document: the trimmed lead and the kept sections, joined. */
  lemma FirstPass(raw: string, tools: set<string>)
    ensures Filter(raw, tools) == Join(Texts(raw, tools), "\n\n")
  {
    if Trim(raw) == "" {
      BlankHasNothing(raw);
      Nothing(tools);
    } else {
      FirstPassOfText(raw, tools);
    }
  }

  lemma JoinWithPrefix(a: string, m: string, rest: seq<string>)
    ensures Join([a + m] + rest, "\n\n") == a + Join([m] + rest, "\n\n")
  {
    assert ([a + m] + rest)[1..] == rest && ([m] + rest)[1..] == rest;
    if rest != [] {
      var j := "\n\n" + Join(rest, "\n\n");
      assert (a + m) + j == a + (m + j);
      assert (a + m) + "\n\n" + Join(rest, "\n\n") == (a + m) + j;
      assert m + "\n\n" + Join(rest, "\n\n") == m + j;
    }
  }

  // ---- the second pass --------------------------------------------------------------------------

  /** Texts as the filter leaves them; only the first may be something else than a section's. */
  ghost predicate Readable(texts: seq<string>) {
    && Solid(texts) && (forall i :: 0 <= i < |texts| ==> IsAtom(texts[i]))
    && forall i :: 1 <= i < |texts| ==> IsHeading(FirstLine(texts[i])) || texts[i] == BARE
  }

  /** Whether a later pass keeps the last text; a bare heading has become part of the text before it. */
  predicate Alive(texts: seq<string>, tools: set<string>)
    requires texts != []
  {
    var x := FirstLine(texts[|texts| - 1]);
    if IsHeading(x) then Allowed(tools, TitleOf(x)) else |texts| == 1 || Alive(texts[..|texts| - 1], tools)
  }

  function Survivors(texts: seq<string>, tools: set<string>): seq<string> {
    if texts == [] then []
    else
      Survivors(texts[..|texts| - 1], tools) + if Alive(texts, tools) then [texts[|texts| - 1]] else []
  }

  /** `sections` are what a later pass reads in `texts`. */
  ghost predicate ReadAs(texts: seq<string>, tools: set<string>, sections: seq<Section>)
    requires texts != []
  {
    && sections != []
    && Join(Kept(sections, tools), "\n\n") == Join(Survivors(texts, tools), "\n\n")
    && (Kept(sections, tools) == [] <==> Survivors(texts, tools) == [])
    && var last := sections[|sections| - 1];
       IsKept(last, tools) == Alive(texts, tools) && Body(last) == Join(last.body, "\n") != ""
  }

  lemma NextText(texts: seq<string>, x: string, tools: set<string>)
    ensures Survivors(texts + [x], tools) == Survivors(texts, tools) + if Alive(texts + [x], tools) then [x] else []
    ensures Alive(texts + [x], tools)
         == if IsHeading(FirstLine(x)) then Allowed(tools, TitleOf(FirstLine(x)))
            else texts == [] || Alive(texts, tools)
  {
    hide Allowed, TitleOf, FirstLine, IsHeading;
    assert (texts + [x])[..|texts|] == texts;
  }

  lemma NextSection(sections: seq<Section>, s: Section, tools: set<string>)
    ensures Kept(sections + [s], tools) == Kept(sections, tools) + if IsKept(s, tools) then [Body(s)] else []
  {
    KeptNext(sections + [s], tools, |sections|);
    assert (sections + [s])[..|sections|] == sections && (sections + [s])[..|sections| + 1] == sections + [s];
  }

  lemma BodyOfAtom(x: string, title: Option<string>)
    requires x != "" && IsTrimmed(x)
    ensures Body(Section(title, Split(x, '\n'))) == x && Join(Split(x, '\n'), "\n") == x
  {
    JoinOfSplit(x, '\n');
    TrimEndOf(x, "");
    assert x + "" == x;
  }

  lemma AtomIsBlock(x: string)
    requires IsAtom(x)
    ensures if IsHeading(FirstLine(x)) then IsBlock(Split(x, '\n')) else NoHeading(Split(x, '\n'))
  {
    hide IsHeading;
    var lines := Split(x, '\n');
    assert lines == [lines[0]] + lines[1..];
  }

  lemma ReadFirst(x: string, tools: set<string>)
    requires IsAtom(x)
    ensures ReadAs([x], tools, Sections(Split(x, '\n')))
  {
    AtomIsBlock(x);
    Nothing(tools);
    NextText([], x, tools);
    hide IsHeading, TitleOf, Allowed, Split, Join, Sections, Kept, Survivors, Alive, IsAtom;
    var lines := Split(x, '\n');
    assert [] + lines == lines && [] + [x] == [x];
    var none := Section(None, []);
    assert IsHeading(FirstLine(x)) ==> Body(none) == "" by { EmptyBody(); }
    KeptOfOne(none, tools);
    assert Survivors([], tools) == [] by { SurvivorsOfNone(tools); }
    if IsHeading(FirstLine(x)) {
      SectionsOfBlock([], lines);
      BodyOfAtom(x, Some(TitleOf(lines[0])));
      NextSection([none], Section(Some(TitleOf(lines[0])), lines), tools);
    } else {
      SectionsOfPlain([], lines);
      assert Extended([none], lines) == [Section(None, lines)] by { assert [] + lines == lines; }
      BodyOfAtom(x, None);
      KeptOfOne(Section(None, lines), tools);
    }
  }

  lemma EmptyBody()
    ensures Body(Section(None, [])) == ""
  {
  }

  lemma SurvivorsOfNone(tools: set<string>)
    ensures Survivors([], tools) == []
  {
  }

  /** What a longer body of the last section does to the texts that are kept. */
  lemma LastGrows(front: seq<Section>, last: Section, longer: Section, more: string, tools: set<string>)
    requires longer.title == last.title && Body(last) != "" && Body(longer) == Body(last) + more
    ensures Join(Kept(front + [longer], tools), "\n\n")
         == Join(Kept(front + [last], tools), "\n\n") + (if IsKept(last, tools) then more else "")
    ensures |Kept(front + [longer], tools)| == |Kept(front + [last], tools)|
    ensures more == "" ==> Kept(front + [longer], tools) == Kept(front + [last], tools)
    ensures IsKept(longer, tools) == IsKept(last, tools)
  {
    hide Body, Join, Kept, Allowed;
    NextSection(front, last, tools);
    NextSection(front, longer, tools);
    JoinWithLonger(Kept(front, tools), Body(last), more);
    assert more == "" ==> Body(longer) == Body(last);
    var j := Join(Kept(front + [last], tools), "\n\n");
    assert j + "" == j;
  }

  lemma ExtendedIs(sections: seq<Section>, lines: seq<string>)
    returns (front: seq<Section>, last: Section, longer: Section)
    requires sections != []
    ensures sections == front + [last] && Extended(sections, lines) == front + [longer]
    ensures longer == last.(body := last.body + lines) && last == sections[|sections| - 1]
  {
    front, last := sections[..|sections| - 1], sections[|sections| - 1];
    longer := last.(body := last.body + lines);
  }

  /** A blank line behind the last section is trimmed off again. */
  lemma Padded(sections: seq<Section>, tools: set<string>)
    requires sections != []
    requires var last := sections[|sections| - 1]; Body(last) == Join(last.body, "\n") != ""
    ensures Kept(Extended(sections, [""]), tools) == Kept(sections, tools)
  {
    var front, last, longer := ExtendedIs(sections, [""]);
    BodyOfPadded(last.body);
    hide Join, Kept, IsKept, Extended;
    assert Body(longer) == Body(last) + "";
    LastGrows(front, last, longer, "", tools);
  }

  lemma BodyOfPadded(body: seq<string>)
    requires TrimEnd(Join(body, "\n")) == Join(body, "\n") != ""
    ensures TrimEnd(Join(body + [""], "\n")) == Join(body, "\n")
    ensures Join(body + ["", BARE], "\n") == Join(body, "\n") + "\n\n" + BARE
    ensures TrimEnd(Join(body + ["", BARE], "\n")) == Join(body + ["", BARE], "\n")
  {
    var j := Join(body, "\n");
    assert body != [];
    JoinOfAppend(body, [""], "\n");
    JoinOfAppend(body, ["", BARE], "\n");
    assert ["", BARE][1..] == [BARE] && Join(["", BARE], "\n") == "\n" + BARE;
    assert j + "\n" + ("\n" + BARE) == j + "\n\n" + BARE;
    var b := TrimEndSplits(j);
    TrimEndOf(j, "\n");
    assert j + "\n" + "" == j + "\n";
    TrimEndOf(j + "\n\n" + BARE, "");
    assert j + "\n\n" + BARE + "" == j + "\n\n" + BARE;
  }

  lemma JoinBoth(a: seq<string>, b: seq<string>, x: string)
    requires Join(a, "\n\n") == Join(b, "\n\n") && (a == [] <==> b == [])
    ensures Join(a + [x], "\n\n") == Join(b + [x], "\n\n")
  {
    hide Join;
    JoinNext(a, x);
    JoinNext(b, x);
  }

  lemma ReadHeading(texts: seq<string>, x: string, tools: set<string>, sections: seq<Section>)
    requires texts != [] && ReadAs(texts, tools, sections)
    requires x != "" && IsTrimmed(x) && IsHeading(FirstLine(x))
    ensures ReadAs(texts + [x], tools,
                   Extended(sections, [""]) + [Section(Some(TitleOf(FirstLine(x))), Split(x, '\n'))])
  {
    hide Body, Join, Kept, Allowed, TitleOf, IsHeading, Split, Survivors, Alive, Extended, IsTrimmed;
    var s := Section(Some(TitleOf(FirstLine(x))), Split(x, '\n'));
    Padded(sections, tools);
    NextSection(Extended(sections, [""]), s, tools);
    BodyOfAtom(x, s.title);
    NextText(texts, x, tools);
    var a, b := Kept(sections, tools), Survivors(texts, tools);
    JoinBoth(a, b, x);
    assert a + [] == a && b + [] == b;
  }

  /** A bare heading becomes part of the last section's text. */
  lemma Lengthened(sections: seq<Section>, tools: set<string>)
    requires sections != []
    requires var last := sections[|sections| - 1]; Body(last) == Join(last.body, "\n") != ""
    ensures var (last, longer) := (sections[|sections| - 1], Extended(sections, ["", BARE]));
            && Join(Kept(longer, tools), "\n\n")
               == Join(Kept(sections, tools), "\n\n") + (if IsKept(last, tools) then "\n\n" + BARE else "")
            && |Kept(longer, tools)| == |Kept(sections, tools)|
            && IsKept(longer[|longer| - 1], tools) == IsKept(last, tools)
            && Body(longer[|longer| - 1]) == Join(longer[|longer| - 1].body, "\n") != ""
  {
    var front, last, longer := ExtendedIs(sections, ["", BARE]);
    var more := "\n\n" + BARE;
    BodyOfPadded(last.body);
    assert Body(last) + "\n\n" + BARE == Body(last) + more;
    hide Join, Kept, IsKept, Extended, TrimEnd;
    assert Body(longer) == Join(longer.body, "\n") == Body(last) + more;
    LastGrows(front, last, longer, more, tools);
  }

  lemma SurvivorsWithBare(texts: seq<string>, tools: set<string>)
    requires texts != []
    ensures Join(Survivors(texts + [BARE], tools), "\n\n")
         == Join(Survivors(texts, tools), "\n\n") + (if Alive(texts, tools) then "\n\n" + BARE else "")
    ensures Survivors(texts + [BARE], tools) == [] <==> Survivors(texts, tools) == []
    ensures Alive(texts + [BARE], tools) == Alive(texts, tools)
  {
    BareIsNoHeading();
    NextText(texts, BARE, tools);
    var kept := Survivors(texts, tools);
    assert Alive(texts, tools) ==> kept != [];
    hide Join, Survivors, Alive, FirstLine, Allowed, IsHeading, TitleOf;
    var j := Join(kept, "\n\n");
    if Alive(texts, tools) {
      JoinNext(kept, BARE);
      assert j + "\n\n" + BARE == j + ("\n\n" + BARE);
    } else {
      assert kept + [] == kept && j + "" == j;
    }
  }

  lemma ReadBare(texts: seq<string>, tools: set<string>, sections: seq<Section>)
    requires texts != [] && ReadAs(texts, tools, sections)
    ensures ReadAs(texts + [BARE], tools, Extended(sections, ["", BARE]))
  {
    SurvivorsWithBare(texts, tools);
    Lengthened(sections, tools);
    hide Body, Join, Kept, IsKept, Allowed, TitleOf, IsHeading, Split, Survivors, Alive, Extended;
  }

  lemma BareIsNoHeading()
    ensures Split(BARE, '\n') == [BARE] && FirstLine(BARE) == BARE && !IsHeading(BARE)
  {
    SplitWhole(BARE, '\n');
  }

  lemma LinesOfNext(texts: seq<string>, x: string)
    requires texts != []
    ensures Split(Join(texts + [x], "\n\n"), '\n') == Split(Join(texts, "\n\n"), '\n') + [""] + Split(x, '\n')
  {
    JoinNext(texts, x);
    EmptyIsNoHeading();
    var j := Join(texts, "\n\n");
    hide Join, Split;
    SplitAround(j, '\n', "\n" + x);
    SplitAround("", '\n', x);
    assert "" + "\n" + x == "\n" + x;
    assert j + "\n\n" + x == j + "\n" + ("\n" + x);
  }

  lemma ReadNext(front: seq<string>, x: string, tools: set<string>, before: seq<string>)
    requires front != [] && IsAtom(x) && (IsHeading(FirstLine(x)) || x == BARE)
    requires ReadAs(front, tools, Sections(before))
    ensures ReadAs(front + [x], tools, Sections(before + [""] + Split(x, '\n')))
  {
    AtomIsBlock(x);
    BareIsNoHeading();
    EmptyIsNoHeading();
    FirstIsFirst(x);
    assert x != "" && IsTrimmed(x);
    hide *;
    if IsHeading(FirstLine(x)) {
      SectionsOfPlain(before, [""]);
      SectionsOfBlock(before + [""], Split(x, '\n'));
      ReadHeading(front, x, tools, Sections(before));
    } else {
      assert before + [""] + [BARE] == before + ["", BARE];
      SectionsOfPlain(before, ["", BARE]);
      ReadBare(front, tools, Sections(before));
    }
  }

  lemma {:induction false} SecondRead(texts: seq<string>, tools: set<string>)
    requires texts != [] && Readable(texts)
    ensures ReadAs(texts, tools, Sections(Split(Join(texts, "\n\n"), '\n')))
    decreases |texts|
  {
    hide Join, Split, IsHeading, TitleOf, ReadAs, IsAtom, Sections, FirstLine, IsTrimmed;
    var front, x := texts[..|texts| - 1], texts[|texts| - 1];
    assert texts == front + [x];
    if front == [] {
      JoinNext(front, x);
      ReadFirst(x, tools);
    } else {
      SecondRead(front, tools);
      LinesOfNext(front, x);
      ReadNext(front, x, tools, Split(Join(front, "\n\n"), '\n'));
    }
  }

  lemma FirstIsFirst(x: string)
    ensures FirstLine(x) == Split(x, '\n')[0]
  {
  }

  lemma EmptyIsNoHeading()
    ensures !IsHeading("") && Split("", '\n') == [""]
  {
  }

  lemma {:induction false} SurvivorsAreSolid(texts: seq<string>, tools: set<string>)
    requires Solid(texts)
    ensures Solid(Survivors(texts, tools))
    decreases |texts|
  {
    hide Alive;
    if texts != [] {
      SurvivorsAreSolid(texts[..|texts| - 1], tools);
    }
  }

  /** A pass over texts that a pass left keeps the survivors. */
  lemma SecondPass(texts: seq<string>, tools: set<string>)
    requires Readable(texts)
    ensures Filter(Join(texts, "\n\n"), tools) == Join(Survivors(texts, tools), "\n\n")
  {
    if texts != [] {
      SecondRead(texts, tools);
      JoinOfSolid(texts);
      TrimOfTrimmed(Join(texts, "\n\n"));
      SurvivorsAreSolid(texts, tools);
      JoinOfSolid(Survivors(texts, tools));
      TrimOfTrimmed(Join(Survivors(texts, tools), "\n\n"));
    }
  }

  // ---- one pass against two ---------------------------------------------------------------------

  /**
   Something that a pass with `tools` keeps is lost by a second pass with `fewer`, though one pass with
   `fewer` keeps it: a lead that begins like a heading once it is trimmed, or a bare heading that has
   become part of a section for which `fewer` is not enough.
   */
  predicate Orphaned(lead: seq<string>, sections: seq<Section>, tools: set<string>, fewer: set<string>) {
    if sections == [] then lead != [] && !Alive(lead, fewer)
    else
      var front, s := sections[..|sections| - 1], sections[|sections| - 1];
      || Orphaned(lead, front, tools, fewer)
      || (Body(s) == BARE && lead + Kept(front, tools) != [] && !Alive(lead + Kept(front, tools), fewer))
  }

  lemma AllowedGrows(title: string, tools: set<string>, fewer: set<string>)
    requires fewer <= tools
    ensures Allowed(fewer, title) ==> Allowed(tools, title)
    ensures Allowed(fewer, "")
  {
    hide Gate;
    assert Gate("") == None by { UntitledIsFree(); }
  }

  lemma UntitledIsFree()
    ensures Gate("") == None
  {
  }

  lemma NextCompared(kept: seq<string>, s: Section, tools: set<string>, fewer: set<string>)
    requires Titled(s) && fewer <= tools && IsKept(s, tools)
    ensures var x := Body(s); var lost := x == BARE && kept != [] && !Alive(kept, fewer);
            Survivors(kept + [x], fewer)
            == Survivors(kept, fewer) + if IsKept(s, fewer) && !lost then [x] else []
    ensures Body(s) == BARE ==> IsKept(s, fewer)
  {
    BodyIsSectionText(s);
    BareIsNoHeading();
    AllowedGrows(s.title.value, tools, fewer);
    NextText(kept, Body(s), fewer);
    hide Body, Alive, Allowed, TitleOf, FirstLine, IsHeading, IsAtom, Survivors;
  }

  lemma BareIsKept(s: Section, tools: set<string>)
    requires Titled(s)
    ensures Body(s) == BARE ==> IsKept(s, tools)
  {
    BodyIsSectionText(s);
    BareIsNoHeading();
    AllowedGrows(s.title.value, tools, tools);
  }

  /** How one more section changes both outcomes. */
  lemma OneMore(kept: seq<string>, once: seq<string>, s: Section, tools: set<string>, fewer: set<string>)
    requires Titled(s) && fewer <= tools
    ensures var x := Body(s); var lost := x == BARE && kept != [] && !Alive(kept, fewer);
            var twice' := Survivors(if IsKept(s, tools) then kept + [x] else kept, fewer);
            if !IsKept(s, fewer) then !lost && twice' == Survivors(kept, fewer)
            else if lost then twice' == Survivors(kept, fewer) && Weight(once + [x]) > Weight(once)
            else twice' == Survivors(kept, fewer) + [x]
                 && Weight(twice') - Weight(once + [x]) == Weight(Survivors(kept, fewer)) - Weight(once)
  {
    hide Body, Alive, IsKept, Titled, Survivors, Weight;
    var x := Body(s);
    BareIsKept(s, fewer);
    KeptGrows(s, tools, fewer);
    WeightNext(once, x);
    WeightNext(Survivors(kept, fewer), x);
    if IsKept(s, tools) {
      NextCompared(kept, s, tools, fewer);
      assert Survivors(kept, fewer) + [] == Survivors(kept, fewer);
    }
  }

  ghost predicate Agree(lead: seq<string>, sections: seq<Section>, tools: set<string>, fewer: set<string>, lost: bool) {
    var once, twice := lead + Kept(sections, fewer), Survivors(lead + Kept(sections, tools), fewer);
    if lost then Weight(twice) < Weight(once) else twice == once
  }

  lemma AgreeNext(lead: seq<string>, front: seq<Section>, s: Section, tools: set<string>, fewer: set<string>,
                  lost: bool)
    requires Titled(s) && fewer <= tools && Agree(lead, front, tools, fewer, lost)
    ensures var kept := lead + Kept(front, tools);
            Agree(lead, front + [s], tools, fewer, lost || (Body(s) == BARE && kept != [] && !Alive(kept, fewer)))
  {
    hide Body, Alive, IsKept, Titled, Survivors, Weight, Kept;
    NextSection(front, s, tools);
    NextSection(front, s, fewer);
    var kept, once := lead + Kept(front, tools), lead + Kept(front, fewer);
    assert lead + Kept(front + [s], tools) == if IsKept(s, tools) then kept + [Body(s)] else kept;
    assert lead + Kept(front + [s], fewer) == if IsKept(s, fewer) then once + [Body(s)] else once;
    OneMore(kept, once, s, tools, fewer);
  }

  lemma OnlyTheLead(lead: seq<string>, tools: set<string>, fewer: set<string>)
    requires |lead| <= 1
    ensures Agree(lead, [], tools, fewer, Orphaned(lead, [], tools, fewer))
    ensures Orphaned(lead, [], tools, fewer) <==> lead != [] && !Alive(lead, fewer)
    ensures !Orphaned(lead, [], tools, fewer) ==> EndsAlive(lead, [], fewer)
  {
    LeadCompared(lead, tools, fewer);
    Nothing(tools);
    Nothing(fewer);
    hide Alive, Survivors, Weight, Kept;
    assert lead + [] == lead;
  }

  lemma {:induction false} Compared(lead: seq<string>, sections: seq<Section>, tools: set<string>, fewer: set<string>)
    requires |lead| <= 1 && AllTitled(sections) && fewer <= tools
    ensures Agree(lead, sections, tools, fewer, Orphaned(lead, sections, tools, fewer))
    decreases |sections|
  {
    hide Body, Alive, Titled, Agree, Kept;
    if sections == [] {
      OnlyTheLead(lead, tools, fewer);
    } else {
      var front, s := sections[..|sections| - 1], sections[|sections| - 1];
      Compared(lead, front, tools, fewer);
      AgreeNext(lead, front, s, tools, fewer, Orphaned(lead, front, tools, fewer));
      assert front + [s] == sections;
    }
  }

  lemma KeptGrows(s: Section, tools: set<string>, fewer: set<string>)
    requires fewer <= tools
    ensures IsKept(s, fewer) ==> IsKept(s, tools)
  {
    if s.title.Some? { AllowedGrows(s.title.value, tools, fewer); }
  }

  lemma LeadCompared(lead: seq<string>, tools: set<string>, fewer: set<string>)
    requires |lead| <= 1
    ensures if lead != [] && !Alive(lead, fewer) then Weight(Survivors(lead, fewer)) < Weight(lead)
            else Survivors(lead, fewer) == lead
  {
    hide Allowed, FirstLine, TitleOf, IsHeading;
    if lead != [] {
      assert lead == [] + [lead[0]];
      NextText([], lead[0], fewer);
      WeightNext([], lead[0]);
    }
  }

  // ---- main results -----------------------------------------------------------------------------

  lemma {:induction false} SplitOfSpace(b: string)
    requires AllSpace(b)
    ensures NoHeading(Split(b, '\n')) && forall i :: 0 <= i < |Split(b, '\n')| ==> AllSpace(Split(b, '\n')[i])
  {
    if b != "" {
      SplitOfSpace(b[1..]);
      HashIsNoSpace();
      hide IsSpace;
      var lines := Split(b, '\n');
      forall i | 0 <= i < |lines| ensures AllSpace(lines[i]) && !IsHeading(lines[i]) {
        if IsHeading(lines[i]) { assert lines[i][0] == '#'; }
      }
    }
  }

  lemma BlankHasNothing(raw: string)
    requires Trim(raw) == ""
    ensures Lead(raw) == [] && Headed(raw) == []
  {
    var a, b := TrimSplits(raw);
    assert raw == a + b;
    SplitOfSpace(raw);
    JoinOfSplit(raw, '\n');
    var lines := Split(raw, '\n');
    SectionsOfPlain([], lines);
    assert [] + lines == lines;
  }

  lemma LinesBehind(a: string, t: string)
    requires NoHeading(Split(a + t, '\n'))
    ensures NoHeading(Split(t, '\n')[1..])
  {
    SplitOfPrefix(a, t, '\n');
    var all, lines, before := Split(a + t, '\n'), Split(t, '\n'), Split(a, '\n');
    hide Split, IsHeading;
    forall i | 1 <= i < |lines| ensures !IsHeading(lines[i]) {
      assert all[|before| - 1 + i] == lines[i];
    }
  }

  lemma LinesBefore(t: string, b: string)
    requires NoHeading(Split(t + b, '\n')[1..])
    ensures NoHeading(Split(t, '\n')[1..])
  {
    SplitOfPrefix(t, b, '\n');
    var all, lines := Split(t + b, '\n'), Split(t, '\n');
    hide Split, IsHeading;
    forall i | 1 <= i < |lines| ensures !IsHeading(lines[i]) {
      assert all[1..][i - 1] == all[i] && lines[i] <= all[i];
      HeadingGrows(lines[i], all[i]);
    }
  }

  lemma HeadingGrows(x: string, y: string)
    requires x <= y
    ensures IsHeading(x) ==> IsHeading(y)
  {
  }

  lemma LeadIsAtom(raw: string)
    ensures Lead(raw) != [] ==> IsAtom(Lead(raw)[0])
  {
    SplitHasNoSeparator(raw, '\n');
    SectionsAreWellFormed(Split(raw, '\n'));
    var body := Sections(Split(raw, '\n'))[0].body;
    var p := Join(body, "\n");
    assert body == [] ==> Lead(raw) == [];
    hide Titled, Sections, Trim, IsHeading, IsSpace, Join;
    if body != [] {
      SplitOfJoin(body, '\n');
      hide Split;
      TrimIsAtom(p);
    }
  }

  lemma TrimIsAtom(p: string)
    requires NoHeading(Split(p, '\n'))
    ensures Trim(p) != "" ==> IsAtom(Trim(p))
  {
    hide Trim, IsSpace, Split;
    var a, b := TrimSplits(p);
    var t := Trim(p) + b;
    assert p == a + t;
    LinesBehind(a, t);
    LinesBefore(Trim(p), b);
  }

  ghost predicate IsFromSection(text: string) {
    IsAtom(text) && (IsHeading(FirstLine(text)) || text == BARE)
  }

  ghost predicate FromSections(texts: seq<string>) { forall i :: 0 <= i < |texts| ==> IsFromSection(texts[i]) }

  lemma BodyIsFromSection(s: Section)
    requires Titled(s)
    ensures IsFromSection(Body(s))
  {
    BodyIsSectionText(s);
  }

  lemma {:induction false} KeptIsReadable(sections: seq<Section>, tools: set<string>)
    requires AllTitled(sections)
    ensures FromSections(Kept(sections, tools))
    decreases |sections|
  {
    hide Body, Titled, IsKept, IsFromSection;
    if sections != [] {
      KeptIsReadable(sections[..|sections| - 1], tools);
      BodyIsFromSection(sections[|sections| - 1]);
    }
  }

  lemma ReadableFrom(lead: seq<string>, kept: seq<string>)
    requires |lead| <= 1 && (lead != [] ==> IsAtom(lead[0])) && Solid(lead + kept) && FromSections(kept)
    ensures Readable(lead + kept)
  {
    hide IsAtom, IsHeading, FirstLine, Solid;
    var texts := lead + kept;
    forall i | 0 <= i < |texts|
      ensures IsAtom(texts[i]) && (i >= 1 ==> IsHeading(FirstLine(texts[i])) || texts[i] == BARE)
    {
      if i >= |lead| {
        assert texts[i] == kept[i - |lead|];
        assert IsFromSection(kept[i - |lead|]);
      }
    }
  }

  lemma TextsAreReadable(raw: string, tools: set<string>)
    ensures Readable(Texts(raw, tools))
  {
    TextsAreSolid(raw, tools);
    HeadedIsTitled(raw);
    KeptIsReadable(Headed(raw), tools);
    LeadIsAtom(raw);
    hide Lead, Headed, Trim, IsAtom, Solid, Titled, Kept, Readable, FromSections, Filter, Join;
    ReadableFrom(Lead(raw), Kept(Headed(raw), tools));
  }

  /**
   The filter composes: filtering by a tool set and then by a smaller one is filtering by the smaller
   one, exactly when nothing is orphaned in between.  For every document and all tool sets.
   */
  lemma FilterTwiceIff(raw: string, tools: set<string>, fewer: set<string>)
    requires fewer <= tools
    ensures Filter(Filter(raw, tools), fewer) == Filter(raw, fewer)
       <==> !Orphaned(Lead(raw), Headed(raw), tools, fewer)
  {
    FirstPass(raw, tools);
    FirstPass(raw, fewer);
    TextsAreSolid(raw, tools);
    TextsAreSolid(raw, fewer);
    TextsAreReadable(raw, tools);
    SecondPass(Texts(raw, tools), fewer);
    HeadedIsTitled(raw);
    Compared(Lead(raw), Headed(raw), tools, fewer);
    SurvivorsAreSolid(Texts(raw, tools), fewer);
    hide Lead, Headed, Trim, Filter, Join, Kept, Survivors, Weight, Orphaned, Titled, IsAtom, Alive;
    var once, twice := Texts(raw, fewer), Survivors(Texts(raw, tools), fewer);
    JoinOfSolid(once);
    JoinOfSolid(twice);
    WeightOfNone(once);
  }

  /** Headings have titles, and the lead does not become one when it is trimmed. */
  ghost predicate Clean(raw: string) {
    && (Lead(raw) != [] ==> !IsHeading(Lead(raw)[0]))
    && forall i :: 0 <= i < |Headed(raw)| ==> Headed(raw)[i].title != Some("")
  }

  lemma {:induction false} CleanIsNotOrphaned(lead: seq<string>, sections: seq<Section>,
                                              tools: set<string>, fewer: set<string>)
    requires |lead| <= 1 && (lead != [] ==> !IsHeading(lead[0]))
    requires AllTitled(sections) && forall i :: 0 <= i < |sections| ==> sections[i].title != Some("")
    ensures !Orphaned(lead, sections, tools, fewer)
    decreases |sections|
  {
    hide Body, Alive, Kept, IsHeading;
    if sections == [] {
      PlainLeadIsAlive(lead, fewer);
    } else {
      BareIsUntitled(sections[|sections| - 1]);
      hide Titled;
      CleanIsNotOrphaned(lead, sections[..|sections| - 1], tools, fewer);
    }
  }

  lemma PlainLeadIsAlive(lead: seq<string>, tools: set<string>)
    requires |lead| <= 1 && (lead != [] ==> !IsHeading(lead[0]))
    ensures lead != [] ==> Alive(lead, tools)
  {
    hide *;
    if lead != [] {
      FirstLineStarts(lead[0]);
      NextText([], lead[0], tools);
      assert lead == [] + [lead[0]];
    }
  }

  lemma BareIsUntitled(s: Section)
    requires Titled(s)
    ensures Body(s) == BARE ==> s.title == Some("")
  {
    BodyIsSectionText(s);
    BareIsNoHeading();
  }

  lemma FirstLineStarts(x: string)
    ensures FirstLine(x) <= x
    ensures IsHeading(FirstLine(x)) ==> IsHeading(x)
  {
    JoinOfSplit(x, '\n');
    JoinStartsWith(Split(x, '\n'));
  }

  lemma {:induction false} LeadIsAPrefix(lines: seq<string>)
    ensures Sections(lines)[0].body <= lines
    decreases |lines|
  {
    hide IsHeading, TitleOf;
    if lines != [] {
      LeadIsAPrefix(lines[..|lines| - 1]);
      if |Sections(lines[..|lines| - 1])| == 1 { LeadIsAll(lines[..|lines| - 1]); }
    }
  }

  lemma {:induction false} LeadIsAll(lines: seq<string>)
    requires |Sections(lines)| == 1
    ensures Sections(lines)[0].body == lines
    decreases |lines|
  {
    hide IsHeading, TitleOf;
    if lines != [] {
      LeadIsAll(lines[..|lines| - 1]);
    }
  }

  lemma HeadingIsFirst(x: string)
    ensures IsHeading(x) ==> IsHeading(FirstLine(x))
  {
    var mark := "## ";
    if IsHeading(x) {
      assert x == mark + x[3..];
      SplitOfPrefix(mark, x[3..], '\n');
      SplitWhole(mark, '\n');
    }
  }

  lemma LeadHasLines(raw: string)
    ensures Lead(raw) != [] ==> Sections(Split(raw, '\n'))[0].body != []
  {
    assert Trim("") == "";
  }

  /** A document that starts with no white space and whose headings all have titles is clean. */
  lemma UnindentedIsClean(raw: string)
    requires raw == "" || !IsSpace(raw[0])
    requires forall i :: 0 <= i < |Headed(raw)| ==> Headed(raw)[i].title != Some("")
    ensures Clean(raw)
  {
    LeadHasLines(raw);
    if Lead(raw) != [] {
      var lines := Split(raw, '\n');
      SplitHasNoSeparator(raw, '\n');
      LeadIsAPrefix(lines);
      SectionsAreWellFormed(lines);
      FirstLineStarts(raw);
      FirstLineIsEmpty(raw);
      var body := Sections(lines)[0].body;
      JoinStartsWith(body);
      SplitOfJoin(body, '\n');
      assert !IsHeading(body[0]);
      hide Sections, Titled, Split, Join, Trim, IsHeading, IsSpace;
      var p := Join(body, "\n");
      var a, b := TrimSplits(p);
      LineStarts(raw, body[0], p, a, Trim(p), b);
      HeadingGrows(Trim(p), p);
      HeadingIsFirst(p);
    }
  }

  lemma FirstLineIsEmpty(raw: string)
    ensures FirstLine(raw) == "" && raw != "" ==> raw[0] == '\n'
  {
  }

  lemma LineStarts(raw: string, line: string, p: string, a: string, m: string, b: string)
    requires line <= raw && (raw != "" ==> !IsSpace(raw[0])) && line <= p && p == a + m + b && AllSpace(a)
    requires line == "" && raw != "" ==> raw[0] == '\n'
    requires line == "" && raw == "" ==> p == ""
    ensures m <= p
  {
    assert forall i :: 0 <= i < |a| ==> p[i] == a[i];
    if line != "" {
      assert line[0] == raw[0];
      assert line[0] == p[0];
      assert a == "";
    }
    assert p == m + b;
  }

  /** For clean documents the filter composes for all tool sets. */
  lemma CleanComposes(raw: string, tools: set<string>, fewer: set<string>)
    requires Clean(raw) && fewer <= tools
    ensures Filter(Filter(raw, tools), fewer) == Filter(raw, fewer)
  {
    FilterTwiceIff(raw, tools, fewer);
    HeadedIsTitled(raw);
    hide Filter, Lead, Headed, Orphaned, Titled;
    CleanIsNotOrphaned(Lead(raw), Headed(raw), tools, fewer);
  }

  ghost predicate EndsAlive(lead: seq<string>, sections: seq<Section>, tools: set<string>) {
    var kept := lead + Kept(sections, tools);
    kept != [] ==> Alive(kept, tools)
  }

  lemma EndsAliveNext(lead: seq<string>, front: seq<Section>, s: Section, tools: set<string>)
    requires Titled(s) && EndsAlive(lead, front, tools)
    ensures EndsAlive(lead, front + [s], tools)
  {
    hide Body, Alive, IsKept, Titled, Kept;
    NextSection(front, s, tools);
    var kept := lead + Kept(front, tools);
    assert lead + Kept(front + [s], tools) == if IsKept(s, tools) then kept + [Body(s)] else kept;
    if IsKept(s, tools) {
      KeptIsAlive(kept, s, tools);
    }
  }

  lemma OrphanedNext(lead: seq<string>, sections: seq<Section>, tools: set<string>)
    requires sections != []
    ensures var front := sections[..|sections| - 1];
            EndsAlive(lead, front, tools) ==>
              Orphaned(lead, sections, tools, tools) == Orphaned(lead, front, tools, tools)
    ensures Orphaned(lead, sections[..|sections| - 1], tools, tools) ==> Orphaned(lead, sections, tools, tools)
  {
    hide Body, Alive, Kept;
  }

  lemma {:induction false} OrphanedByItself(lead: seq<string>, sections: seq<Section>, tools: set<string>)
    requires |lead| <= 1 && AllTitled(sections)
    ensures Orphaned(lead, sections, tools, tools) <==> lead != [] && !Alive(lead, tools)
    ensures !Orphaned(lead, sections, tools, tools) ==> EndsAlive(lead, sections, tools)
    decreases |sections|
  {
    hide Body, Alive, Titled, Kept, Orphaned, EndsAlive;
    if sections == [] {
      OnlyTheLead(lead, tools, tools);
    } else {
      var front, s := sections[..|sections| - 1], sections[|sections| - 1];
      OrphanedNext(lead, sections, tools);
      OrphanedByItself(lead, front, tools);
      assert front + [s] == sections;
      if EndsAlive(lead, front, tools) {
        EndsAliveNext(lead, front, s, tools);
      }
    }
  }

  lemma KeptIsAlive(kept: seq<string>, s: Section, tools: set<string>)
    requires Titled(s) && IsKept(s, tools) && (kept == [] || Alive(kept, tools))
    ensures Alive(kept + [Body(s)], tools)
  {
    BodyIsSectionText(s);
    NextText(kept, Body(s), tools);
  }

  /** Filtering twice by the same tools changes nothing, unless a lead reads as a heading those tools lack. */
  lemma IdempotentIff(raw: string, tools: set<string>)
    ensures Filter(Filter(raw, tools), tools) == Filter(raw, tools)
       <==> (Lead(raw) == [] || !IsHeading(FirstLine(Lead(raw)[0])) || Allowed(tools, TitleOf(FirstLine(Lead(raw)[0]))))
  {
    FilterTwiceIff(raw, tools, tools);
    HeadedIsTitled(raw);
    OrphanedByItself(Lead(raw), Headed(raw), tools);
    hide Filter, Lead, Headed, Orphaned, Titled, Allowed, TitleOf, FirstLine, IsHeading;
  }

  lemma {:induction false} KeptIsMonotone(lead: seq<string>, sections: seq<Section>,
                                          tools: set<string>, fewer: set<string>)
    requires fewer <= tools
    ensures Subsequence(lead + Kept(sections, fewer), lead + Kept(sections, tools))
    decreases |sections|
  {
    hide Body, IsKept, Subsequence;
    if sections == [] {
      SubsequenceOfItself(lead);
      Nothing(tools);
      Nothing(fewer);
      assert lead + [] == lead;
    } else {
      var front, s := sections[..|sections| - 1], sections[|sections| - 1];
      KeptIsMonotone(lead, front, tools, fewer);
      KeptGrows(s, tools, fewer);
      var a, b := lead + Kept(front, fewer), lead + Kept(front, tools);
      SubsequenceNext(a, b, Body(s));
      assert lead + Kept(sections, fewer) == if IsKept(s, fewer) then a + [Body(s)] else a;
      assert lead + Kept(sections, tools) == if IsKept(s, tools) then b + [Body(s)] else b;
    }
  }

  /** More tools never lose a text or move it: with fewer tools the result joins a subsequence of the same texts. */
  lemma MonotoneInTools(raw: string, tools: set<string>, fewer: set<string>)
    requires fewer <= tools
    ensures Filter(raw, fewer) == Join(Texts(raw, fewer), "\n\n")
    ensures Filter(raw, tools) == Join(Texts(raw, tools), "\n\n")
    ensures Subsequence(Texts(raw, fewer), Texts(raw, tools))
  {
    hide *;
    FirstPass(raw, tools);
    FirstPass(raw, fewer);
    TextsAre(raw, tools);
    TextsAre(raw, fewer);
    KeptIsMonotone(Lead(raw), Headed(raw), tools, fewer);
  }

  lemma TextsAre(raw: string, tools: set<string>)
    ensures Texts(raw, tools) == Lead(raw) + Kept(Headed(raw), tools)
  {
  }

  // ---- documents on which the filter does not compose -------------------------------------------

  lemma LeadOfOneLine(line: string)
    requires line != "" && IsTrimmed(line) && '\n' !in line
    ensures Lead(" " + line) == [line] && Headed(" " + line) == []
  {
    var raw := " " + line;
    SplitWhole(raw, '\n');
    assert !IsHeading(raw) && [] + [raw] == [raw];
    SectionsOfPlain([], [raw]);
    assert Sections([]) == [Section(None, [])];
    TrimOf(" ", line, "");
    assert " " + line + "" == raw;
  }

  /** A line under tools that lack its heading does not survive. */
  lemma GatedLineDies(line: string, tools: set<string>)
    requires IsHeading(line) && '\n' !in line && !Allowed(tools, TitleOf(line))
    ensures Survivors([line], tools) == []
  {
    SplitWhole(line, '\n');
    assert FirstLine(line) == line;
    hide Allowed, TitleOf, FirstLine, IsHeading;
    NextText([], line, tools);
    SurvivorsOfNone(tools);
    assert [] + [line] == [line];
  }

  lemma JoinOfFew(x: string)
    ensures Join([], "\n\n") == "" && Join([x], "\n\n") == x
  {
  }

  /** A first heading with white space before it is kept as a lead once, and dropped as a section then. */
  lemma IndentedHeadingIsLost(line: string, tools: set<string>)
    requires IsHeading(line) && IsTrimmed(line) && '\n' !in line && !Allowed(tools, TitleOf(line))
    ensures Filter(" " + line, tools) == line && Filter(line, tools) == ""
    ensures Filter(Filter(" " + line, tools), tools) != Filter(" " + line, tools)
  {
    assert line != "";
    hide *;
    LeadOfOneLine(line);
    FirstPass(" " + line, tools);
    TextsAreReadable(" " + line, tools);
    TextsAre(" " + line, tools);
    Nothing(tools);
    assert [line] + [] == [line];
    JoinOfFew(line);
    SecondPass([line], tools);
    GatedLineDies(line, tools);
  }

  function SectionOf(lines: seq<string>): Section
    requires lines != [] && IsHeading(lines[0])
  {
    Section(Some(TitleOf(lines[0])), lines)
  }

  lemma SectionBehind(before: seq<string>, lines: seq<string>)
    requires IsBlock(lines)
    ensures Sections(before + lines) == Sections(before) + [SectionOf(lines)]
  {
    SectionsOfBlock(before, lines);
  }

  lemma FourInARow(n: Section, x: Section, y: Section, z: Section)
    ensures [n] + [x] + [y] + [z] == [n] + [x, y, z]
  {
  }

  lemma SectionsOfThree(a: seq<string>, b: seq<string>, c: seq<string>)
    requires IsBlock(a) && IsBlock(b) && IsBlock(c)
    ensures Sections(a + b + c) == [Section(None, [])] + [SectionOf(a), SectionOf(b), SectionOf(c)]
  {
    hide SectionOf, Sections, NoHeading, IsHeading;
    Nothing({});
    SectionBehind([], a);
    SectionBehind(a, b);
    SectionBehind(a + b, c);
    assert [] + a == a;
    FourInARow(Section(None, []), SectionOf(a), SectionOf(b), SectionOf(c));
  }

  lemma BareTitle(bare: string)
    requires bare == "## "
    ensures IsBlock([bare]) && TitleOf(bare) == "" && Body(Section(Some(""), [bare])) == BARE
  {
    assert bare[3..] == "" && |[bare][1..]| == 0;
    TrimOfTrimmed("");
    TrimEndOf(BARE, " ");
    assert BARE + " " == bare;
  }

  /** A bare heading behind a section that the first pass keeps and the second drops. */
  lemma OrphanedBehind(s: Section, bare: Section, next: Section, tools: set<string>)
    requires s.title.Some? && Allowed(tools, s.title.value) && !Allowed({}, s.title.value)
    requires IsSectionText(Body(s), s.title.value) && IsHeading(FirstLine(Body(s))) && Body(bare) == BARE
    ensures Orphaned([], [s, bare, next], tools, {})
  {
    hide Body, Allowed, TitleOf, FirstLine, IsHeading;
    KeptOfOne(s, tools);
    NextText([], Body(s), {});
    var kept := [] + [Body(s)];
    assert kept == [] + Kept([s], tools) && kept == [Body(s)];
    assert [s, bare][..1] == [s] && [s, bare, next][..2] == [s, bare];
    assert Orphaned([], [s, bare], tools, {});
  }

  /** The text of a section that ends in a plain line begins with its heading. */
  lemma HeadingStays(first: string, text: string)
    requires IsHeading(first) && text != "" && IsTrimmed(text) && !IsHeading(text)
    requires '\n' !in first && '\n' !in text
    ensures var s := Section(Some(TitleOf(first)), [first, text]);
            && Titled(s) && IsSectionText(Body(s), TitleOf(first)) && IsHeading(FirstLine(Body(s)))
            && Body(s) == first + "\n" + text
  {
    var s := Section(Some(TitleOf(first)), [first, text]);
    assert [first, text][1..] == [text];
    BodyIsSectionText(s);
    var head := first + "\n";
    assert Join([first, text], "\n") == head + text;
    TrimEndOf(head + text, "");
    assert head + text + "" == head + text;
    assert |Body(s)| > 3;
    hide IsAtom, TrimEnd, Trim, Split;
    assert Body(s) != BARE;
  }

  /** How a document of a section, a bare heading and another section reads. */
  lemma ThreeSections(first: string, text: string, bare: string, last: string)
    requires IsHeading(first) && !IsHeading(text) && IsHeading(last) && bare == "## "
    requires '\n' !in first && '\n' !in text && '\n' !in last
    ensures var raw := Join([first, text, bare, last], "\n");
            && Lead(raw) == []
            && Headed(raw) == [Section(Some(TitleOf(first)), [first, text]), Section(Some(""), [bare]),
                               Section(Some(TitleOf(last)), [last])]
  {
    var a, b, c := [first, text], [bare], [last];
    BareTitle(bare);
    assert a[1..] == [text] && |c[1..]| == 0;
    assert IsBlock(a) && IsBlock(c);
    assert '\n' !in bare;
    SectionsAre(first, text, bare, last);
    hide *;
    SplitOfJoin([first, text, bare, last], '\n');
    SectionsOfThree(a, b, c);
    assert a + b + c == [first, text, bare, last];
    NoLead(Join([first, text, bare, last], "\n"), [SectionOf(a), SectionOf(b), SectionOf(c)]);
  }

  lemma SectionsAre(first: string, text: string, bare: string, last: string)
    requires IsHeading(first) && IsHeading(last) && bare == "## "
    ensures SectionOf([first, text]) == Section(Some(TitleOf(first)), [first, text])
    ensures SectionOf([bare]) == Section(Some(""), [bare]) && SectionOf([last]) == Section(Some(TitleOf(last)), [last])
  {
    BareTitle(bare);
  }

  lemma KeptOfThree(s: Section, bare: Section, next: Section, tools: set<string>)
    requires Titled(s) && Titled(bare) && Body(bare) == BARE
    ensures Kept([s, bare, next], tools)
         == (if Allowed(tools, s.title.value) then [Body(s)] else []) + [BARE] + Kept([next], tools)
  {
    BareIsKept(bare, tools);
    hide *;
    KeptOfOne(s, tools);
    KeptOfOne(bare, tools);
    KeptOfAppend([s], [bare], tools);
    KeptOfAppend([s] + [bare], [next], tools);
    assert [s] + [bare] + [next] == [s, bare, next];
    TitledIsKept(s, tools);
  }

  lemma TitledIsKept(s: Section, tools: set<string>)
    requires Titled(s)
    ensures s.title.Some? && (IsKept(s, tools) <==> Allowed(tools, s.title.value))
  {
  }

  /** A text under a heading that the tools lack, and the bare heading behind it. */
  lemma BothDie(x: string, tools: set<string>)
    requires IsHeading(FirstLine(x)) && !Allowed(tools, TitleOf(FirstLine(x)))
    ensures Survivors([x, BARE], tools) == [] && !Alive([x, BARE], tools)
  {
    BareIsNoHeading();
    SurvivorsOfNone(tools);
    NextText([], x, tools);
    NextText([x], BARE, tools);
    hide *;
    assert [] + [x] == [x] && [x] + [BARE] == [x, BARE];
  }

  lemma DiesOrStays(texts: seq<string>, next: Section, tools: set<string>)
    requires Titled(next) && texts != [] && !Alive(texts, tools)
    ensures Alive(texts + [Body(next)], tools) <==> Body(next) != BARE && Allowed(tools, next.title.value)
  {
    BodyIsSectionText(next);
    BareIsNoHeading();
    hide Allowed, TitleOf, FirstLine, IsHeading, IsAtom, Body, Alive;
    NextText(texts, Body(next), tools);
  }

  lemma FewerSurvive(s: Section, next: Section, tools: set<string>)
    requires Titled(s) && Titled(next) && IsHeading(FirstLine(Body(s))) && !Allowed({}, s.title.value)
    ensures Survivors([Body(s), BARE] + Kept([next], tools), {}) == if Body(next) == BARE then [] else Kept([next], {})
  {
    TitleOfBody(s);
    TitledIsKept(next, tools);
    TitledIsKept(next, {});
    hide *;
    var texts := [Body(s), BARE];
    BothDie(Body(s), {});
    KeptOfOne(next, tools);
    KeptOfOne(next, {});
    AllowedGrows(next.title.value, tools, {});
    NextText(texts, Body(next), {});
    DiesOrStays(texts, next, {});
    assert texts + [] == texts;
  }

  lemma TitleOfBody(s: Section)
    requires Titled(s) && IsHeading(FirstLine(Body(s)))
    ensures TitleOf(FirstLine(Body(s))) == s.title.value
  {
    BodyIsSectionText(s);
  }

  /**
   A heading without a title joins the section before it, and goes with that section: one pass with no
   tools keeps it, and the same pass after one with `tools` does not.
   */
  lemma BareHeadingIsLost(first: string, text: string, bare: string, last: string, tools: set<string>)
    requires IsHeading(first) && IsHeading(last) && text != "" && IsTrimmed(text) && !IsHeading(text) && bare == "## "
    requires '\n' !in first && '\n' !in text && '\n' !in last
    requires Allowed(tools, TitleOf(first)) && !Allowed({}, TitleOf(first))
    ensures var raw, next := Join([first, text, bare, last], "\n"), Section(Some(TitleOf(last)), [last]);
            && Filter(raw, tools) == Join([first + "\n" + text, BARE] + Kept([next], tools), "\n\n")
            && Filter(raw, {}) == Join([BARE] + Kept([next], {}), "\n\n")
            && Filter(Filter(raw, tools), {}) == Join(if Body(next) == BARE then [] else Kept([next], {}), "\n\n")
            && Filter(Filter(raw, tools), {}) != Filter(raw, {})
  {
    hide *;
    var raw := Join([first, text, bare, last], "\n");
    var s, b := Section(Some(TitleOf(first)), [first, text]), Section(Some(""), [bare]);
    var c := Section(Some(TitleOf(last)), [last]);
    ThreeSections(first, text, bare, last);
    HeadingStays(first, text);
    BareTitle(bare);
    SinglesAreTitled(bare, last);
    OrphanedBehind(s, b, c, tools);
    FilterTwiceIff(raw, tools, {});
    NothingInFront(raw, tools);
    NothingInFront(raw, {});
    KeptOfThree(s, b, c, tools);
    KeptOfThree(s, b, c, {});
    assert [Body(s)] + [BARE] == [Body(s), BARE] && [] + [BARE] == [BARE];
    SecondPass([Body(s), BARE] + Kept([c], tools), {});
    FewerSurvive(s, c, tools);
  }

  lemma SinglesAreTitled(bare: string, last: string)
    requires bare == "## " && IsHeading(last) && '\n' !in last
    ensures Titled(Section(Some(""), [bare])) && Titled(Section(Some(TitleOf(last)), [last]))
  {
    BareTitle(bare);
    assert |[last][1..]| == 0;
  }

  lemma NothingInFront(raw: string, tools: set<string>)
    requires Lead(raw) == []
    ensures Filter(raw, tools) == Join(Kept(Headed(raw), tools), "\n\n") && Readable(Kept(Headed(raw), tools))
  {
    hide *;
    FirstPass(raw, tools);
    TextsAreReadable(raw, tools);
    TextsAre(raw, tools);
    assert [] + Kept(Headed(raw), tools) == Kept(Headed(raw), tools);
  }

  lemma NoLead(raw: string, headed: seq<Section>)
    requires Sections(Split(raw, '\n')) == [Section(None, [])] + headed
    ensures Lead(raw) == [] && Headed(raw) == headed
  {
    hide Split, Sections;
    assert Trim("") == "" && Join([], "\n") == "";
  }

  lemma GateOfDelegation()
    ensures Gate("Delegation") == Some(["delegate_task", "spawn_background_task"])
  {
  }

  lemma DelegationIsGated()
    ensures Allowed({"delegate_task"}, "Delegation") && !Allowed({}, "Delegation")
  {
    GateOfDelegation();
    hide Gate;
    var needed := ["delegate_task", "spawn_background_task"];
    assert needed[0] in {"delegate_task"};
  }

  lemma DelegationHeading()
    ensures IsHeading("## Delegation") && IsTrimmed("## Delegation") && '\n' !in "## Delegation"
    ensures TitleOf("## Delegation") == "Delegation"
  {
    assert "## Delegation"[3..] == "Delegation";
    TrimOfTrimmed("Delegation");
  }

  lemma OtherLines()
    ensures IsHeading("## Other") && IsTrimmed("x") && !IsHeading("x") && '\n' !in "x" && '\n' !in "## Other"
  {
  }

  /** Both happen with a heading of the gate table. */
  lemma FilterNeedNotCompose()
    ensures var raw := " " + "## Delegation"; Filter(raw, {}) == "## Delegation" && Filter(Filter(raw, {}), {}) == ""
    ensures var raw := Join(["## Delegation", "x", "## ", "## Other"], "\n");
            Filter(Filter(raw, {"delegate_task"}), {}) != Filter(raw, {})
  {
    hide *;
    DelegationIsGated();
    DelegationHeading();
    OtherLines();
    IndentedHeadingIsLost("## Delegation", {});
    BareHeadingIsLost("## Delegation", "x", "## ", "## Other", {"delegate_task"});
  }
}
