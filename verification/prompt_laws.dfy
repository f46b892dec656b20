/** What the executor and verifier prompts say, part by part and with the limits in characters. */
module PromptLaws {
  import opened Graphs
  import opened Sequences
  import opened TaskPlan
  import opened Context

  // ----- Cutting -----

  /** cut is text itself if it has at most limit characters; otherwise it is a beginning of text
      followed by a note that names the tag and the limit in tokens, and, if the note leaves room for
      it, exactly limit characters long. */
  predicate IsCut(text: string, limit: nat, tokens: string, tag: string, cut: string) {
    var note := "\n... [" + tag + " truncated to " + tokens + " tokens]";
    if |text| <= limit then cut == text
    else
      var kept := if |note| <= limit then limit - |note| else if |text| + limit >= |note| then |text| + limit - |note| else 0;
      kept <= |text| && cut == text[..kept] + note
  }

  lemma OneDigit(n: nat)
    requires n < 10
    ensures Digits(n) == ["0123456789"[n]]
  {
  }

  lemma TwoDigits(m: nat, n: nat)
    requires 0 < m < 10 && n < 10
    ensures Digits(10 * m + n) == ["0123456789"[m], "0123456789"[n]]
  {
    OneDigit(m);
    assert (10 * m + n) / 10 == m && (10 * m + n) % 10 == n;
  }

  lemma TimesTen(n: nat, m: nat, digits: string)
    requires n > 0 && m == 10 * n && digits == Digits(n)
    ensures Digits(m) == digits + "0"
  {
    assert m / 10 == n && m % 10 == 0;
  }

  lemma TimesThousand(n: nat, hundreds: nat, thousands: nat, digits: string)
    requires n > 0 && hundreds == 100 * n && thousands == 10 * hundreds && digits == Digits(n)
    ensures Digits(hundreds) == digits + "00" && Digits(thousands) == digits + "000"
  {
    TimesTen(n, 10 * n, digits);
    TimesTen(10 * n, hundreds, digits + "0");
    assert digits + "0" + "0" == digits + "00";
    TimesTen(hundreds, thousands, digits + "00");
    assert digits + "00" + "0" == digits + "000";
  }

  lemma CutIs(text: string, limit: nat, tokens: string, tag: string)
    requires tokens == Digits(limit / 4)
    ensures IsCut(text, limit, tokens, tag, Truncate(text, limit, tag))
  {
  }

  lemma CutAtThousands(text: string, n: nat, digits: string, tokens: string, tag: string)
    requires n > 0 && digits == Digits(n) && tokens == digits + "000"
    ensures IsCut(text, 4000 * n, tokens, tag, Truncate(text, 4000 * n, tag))
  {
    TimesThousand(n, 100 * n, 1000 * n, digits);
    assert 4000 * n / 4 == 1000 * n;
    CutIs(text, 4000 * n, tokens, tag);
  }

  lemma CutAtHundreds(text: string, n: nat, digits: string, tokens: string, tag: string)
    requires n > 0 && digits == Digits(n) && tokens == digits + "00"
    ensures IsCut(text, 400 * n, tokens, tag, Truncate(text, 400 * n, tag))
  {
    TimesThousand(n, 100 * n, 1000 * n, digits);
    assert 400 * n / 4 == 100 * n;
    CutIs(text, 400 * n, tokens, tag);
  }

  // ----- The order of ids -----

  /** At place i the two first differ, and a has the smaller character there or has ended. */
  predicate SmallerAt(a: string, b: string, i: int) {
    0 <= i <= |a| && i < |b| && a[..i] == b[..i] && (i == |a| || a[i] < b[i])
  }

  /** Strings are ordered by their characters, a beginning before the whole. */
  lemma {:induction false} StrLeIff(a: string, b: string)
    ensures StrLe(a, b) <==> a == b || exists i :: SmallerAt(a, b, i)
  {
    if a == "" {
      if b != "" {
        assert SmallerAt(a, b, 0);
      }
    } else if b == "" {
    } else if a[0] == b[0] {
      StrLeIff(a[1..], b[1..]);
      assert a == [a[0]] + a[1..] && b == [b[0]] + b[1..];
      if i :| SmallerAt(a[1..], b[1..], i) {
        assert a[..i + 1] == [a[0]] + a[1..][..i] && b[..i + 1] == [b[0]] + b[1..][..i];
        assert SmallerAt(a, b, i + 1);
      }
      if i :| SmallerAt(a, b, i) {
        assert i > 0;
        assert a[1..][..i - 1] == a[..i][1..] && b[1..][..i - 1] == b[..i][1..];
        assert SmallerAt(a[1..], b[1..], i - 1);
      }
    } else {
      if a[0] < b[0] {
        assert SmallerAt(a, b, 0);
      }
      if i :| SmallerAt(a, b, i) {
        FirstAgree(a, b, i);
      }
    }
  }

  lemma FirstAgree(a: string, b: string, i: int)
    requires 0 <= i <= |a| && i <= |b| && a[..i] == b[..i]
    ensures i > 0 ==> a[0] == b[0]
  {
    if i > 0 {
      assert a[..i][0] == b[..i][0];
    }
  }

  // ----- The executor prompt -----

  /** text has, for each of deps, a line with its id and its output, cut to 4000 characters. */
  ghost predicate AreOutputLines(deps: seq<Id>, outputs: map<Id, string>, text: string) {
    if deps == [] then
      text == ""
    else
      exists shown, more ::
        && IsCut(if deps[0] in outputs then outputs[deps[0]] else "(no output)", 4000, "1000", deps[0], shown)
        && AreOutputLines(deps[1..], outputs, more)
        && text == "\n- " + deps[0] + ": " + shown + more
  }

  /** The dependencies, in ascending order and with their outputs, or nothing. */
  ghost predicate IsDependencyPart(task: Task, outputs: map<Id, string>, part: string) {
    if task.dependsOn == [] then
      part == ""
    else
      exists deps, lines ::
        && multiset(deps) == multiset(task.dependsOn) && Sorted(deps) && AreOutputLines(deps, outputs, lines)
        && part == "Outputs from dependencies:" + lines + "\n\n"
  }

  /** The parts of the prompt put together. */
  function Assembled(task: Task, found: string, part: string): string {
    "Task ID: " + task.id + "\n\n"
    + ("Description: " + task.description + "\n\n")
    + ("Tool hints: " + Join(task.toolHints, ", ") + "\n\n")
    + ("Research context for this task:\n" + found + "\n\n")
    + (part + "Generate a Python script. Use print() for captured output.")
  }

  /** text is the whole prompt of a task, before it is cut to the budget. */
  ghost predicate IsExecutorText(task: Task, research: map<Id, string>, outputs: map<Id, string>, text: string) {
    exists found, part ::
      && IsCut(if task.id in research then research[task.id] else "No research context available.", 12000, "3000",
               "research_context", found)
      && IsDependencyPart(task, outputs, part)
      && text == Assembled(task, found, part)
  }

  lemma OutputCut(d: Id, outputs: map<Id, string>)
    ensures IsCut(if d in outputs then outputs[d] else "(no output)", 4000, "1000", d, DependencyText(d, outputs))
  {
    OneDigit(1);
    CutAtThousands(if d in outputs then outputs[d] else "(no output)", 1, "1", "1000", d);
  }

  lemma AddLine(deps: seq<Id>, outputs: map<Id, string>, more: string)
    requires deps != [] && AreOutputLines(deps[1..], outputs, more)
    ensures AreOutputLines(deps, outputs, "\n- " + deps[0] + ": " + DependencyText(deps[0], outputs) + more)
  {
    OutputCut(deps[0], outputs);
  }

  lemma {:induction false} LinesJoined(deps: seq<Id>, outputs: map<Id, string>)
    requires deps != []
    ensures AreOutputLines(deps, outputs, "\n" + Join(DependencyLines(deps, outputs), "\n"))
  {
    var lines := DependencyLines(deps, outputs);
    assert lines[1..] == DependencyLines(deps[1..], outputs);
    var more := if |deps| == 1 then "" else "\n" + Join(lines[1..], "\n");
    if |deps| == 1 {
      assert AreOutputLines(deps[1..], outputs, "");
    } else {
      LinesJoined(deps[1..], outputs);
    }
    AddLine(deps, outputs, more);
    LineFirst(deps[0], DependencyText(deps[0], outputs), more, lines);
  }

  lemma LineFirst(d: Id, shown: string, more: string, lines: seq<string>)
    requires lines != [] && lines[0] == "- " + d + ": " + shown
    requires more == if |lines| == 1 then "" else "\n" + Join(lines[1..], "\n")
    ensures "\n" + Join(lines, "\n") == "\n- " + d + ": " + shown + more
  {
    DashFirst(d, shown);
    if |lines| > 1 {
      BreakFirst(lines[0], Join(lines[1..], "\n"));
    }
  }

  lemma DashFirst(d: Id, shown: string)
    ensures "\n" + ("- " + d + ": " + shown) == "\n- " + d + ": " + shown
  {
  }

  lemma BreakFirst(line: string, rest: string)
    ensures "\n" + (line + "\n" + rest) == "\n" + line + ("\n" + rest)
  {
  }

  /** The part of the prompt between the research and the closing line. */
  function DependencyPart(task: Task, outputs: map<Id, string>): string {
    if task.dependsOn == [] then ""
    else "Outputs from dependencies:" + ("\n" + Join(DependencyLines(Sort(task.dependsOn), outputs), "\n")) + "\n\n"
  }

  lemma DependencyPartIs(task: Task, outputs: map<Id, string>)
    ensures IsDependencyPart(task, outputs, DependencyPart(task, outputs))
  {
    if task.dependsOn != [] {
      var deps := Sort(task.dependsOn);
      SortSorts(task.dependsOn);
      assert |multiset(deps)| == |multiset(task.dependsOn)|;
      LinesJoined(deps, outputs);
    }
  }

  lemma HeadJoined(h: seq<string>, closing: string)
    requires |h| == 4
    ensures Join(h + [closing], "\n\n")
            == h[0] + "\n\n" + (h[1] + "\n\n") + (h[2] + "\n\n") + (h[3] + "\n\n") + closing
  {
    var all := h + [closing];
    assert all[1..][1..] == all[2..] && all[2..][1..] == all[3..] && all[3..][1..] == [closing];
    assert Join(all[3..], "\n\n") == h[3] + "\n\n" + closing;
    assert Join(all[2..], "\n\n") == h[2] + "\n\n" + Join(all[3..], "\n\n");
    assert Join(all[1..], "\n\n") == h[1] + "\n\n" + Join(all[2..], "\n\n");
  }

  lemma SectionJoined(h: seq<string>, section: string, closing: string)
    requires h != []
    ensures Join(h + [section] + [closing], "\n\n") == Join(h + [section + "\n\n" + closing], "\n\n")
  {
    JoinConcat(h, [section] + [closing], "\n\n");
    JoinConcat(h, [section + "\n\n" + closing], "\n\n");
    assert h + [section] + [closing] == h + ([section] + [closing]);
  }

  lemma TextJoined(task: Task, research: map<Id, string>, outputs: map<Id, string>)
    ensures ExecutorText(task, research, outputs)
            == Join(ExecutorHead(task, research) + [DependencyPart(task, outputs) + CLOSING], "\n\n")
  {
    var h, section := ExecutorHead(task, research), DependencySection(task, outputs);
    if task.dependsOn == [] {
      assert Sort(task.dependsOn) == [] && section == [];
      assert "" + CLOSING == CLOSING && h + section == h;
    } else {
      var lines := Join(DependencyLines(Sort(task.dependsOn), outputs), "\n");
      FirstLine(task, outputs);
      assert section == ["Outputs from dependencies:\n" + lines];
      SectionJoined(h, section[0], CLOSING);
      assert "Outputs from dependencies:" + ("\n" + lines) == "Outputs from dependencies:\n" + lines;
    }
  }

  lemma AssembledIs(task: Task, research: map<Id, string>, outputs: map<Id, string>, found: string, part: string)
    requires IsCut(if task.id in research then research[task.id] else "No research context available.", 12000, "3000",
                   "research_context", found)
    requires IsDependencyPart(task, outputs, part)
    ensures IsExecutorText(task, research, outputs, Assembled(task, found, part))
  {
  }

  function Found(task: Task, research: map<Id, string>): string {
    Truncate(if task.id in research then research[task.id] else "No research context available.", 12000, "research_context")
  }

  lemma ResearchCut(task: Task, research: map<Id, string>)
    ensures IsCut(if task.id in research then research[task.id] else "No research context available.", 12000, "3000",
                  "research_context", Found(task, research))
  {
    OneDigit(3);
    CutAtThousands(if task.id in research then research[task.id] else "No research context available.", 3, "3", "3000",
                   "research_context");
  }

  lemma TextAssembled(task: Task, research: map<Id, string>, outputs: map<Id, string>)
    ensures ExecutorText(task, research, outputs) == Assembled(task, Found(task, research), DependencyPart(task, outputs))
  {
    TextJoined(task, research, outputs);
    HeadJoined(ExecutorHead(task, research), DependencyPart(task, outputs) + CLOSING);
  }

  lemma ExecutorTextIs(task: Task, research: map<Id, string>, outputs: map<Id, string>)
    ensures IsExecutorText(task, research, outputs, ExecutorText(task, research, outputs))
  {
    ResearchCut(task, research);
    DependencyPartIs(task, outputs);
    TextAssembled(task, research, outputs);
    AssembledIs(task, research, outputs, Found(task, research), DependencyPart(task, outputs));
  }

  lemma ExecutorCut(task: Task, research: map<Id, string>, outputs: map<Id, string>)
    ensures IsCut(ExecutorText(task, research, outputs), 32000, "8000", "executor_context",
                  ExecutorContext(task, research, outputs))
  {
    OneDigit(8);
    CutAtThousands(ExecutorText(task, research, outputs), 8, "8", "8000", "executor_context");
  }

  /** The executor prompt is the task's id, description, tool hints and research entry, the outputs of its
      dependencies in ascending order of their ids, and the request, cut to 32000 characters. */
  lemma ExecutorPromptSays(task: Task, research: map<Id, string>, outputs: map<Id, string>) returns (text: string)
    ensures IsExecutorText(task, research, outputs, text)
    ensures IsCut(text, 32000, "8000", "executor_context", ExecutorContext(task, research, outputs))
  {
    text := ExecutorText(task, research, outputs);
    ExecutorTextIs(task, research, outputs);
    ExecutorCut(task, research, outputs);
  }

  // ----- The verifier prompt -----

  /** s keeps d as it is if its JSON text has at most 24000 characters, and cuts each value to 2000
      otherwise. Its keys stand in ascending order. */
  ghost predicate IsSummary(d: Dict, s: Dict)
    requires d.Valid()
  {
    && s.Valid() && Sorted(s.keys) && s.values.Keys == d.values.Keys
    && if |ToJson(d)| <= 24000 then s.values == d.values
       else forall k :: k in d.values ==> IsCut(d.values[k], 2000, "500", k, s.values[k])
  }

  lemma EntryCut(k: string, v: string)
    ensures IsCut(v, 2000, "500", k, Truncate(v, ENTRY_LIMIT, k))
  {
    OneDigit(5);
    CutAtHundreds(v, 5, "5", "500", k);
  }

  lemma SummaryIs(d: Dict)
    requires d.Valid()
    ensures IsSummary(d, MaybeSummarise(d))
  {
    MaybeSummariseValid(d);
    SortSorts(d.keys);
    forall k | k in d.values
      ensures IsCut(d.values[k], 2000, "500", k, Truncate(d.values[k], ENTRY_LIMIT, k))
    {
      EntryCut(k, d.values[k]);
    }
  }

  /** text is the whole prompt of the verifier, before it is cut to the budget. */
  ghost predicate IsVerifierText(goal: string, planJson: string, research: Dict, outputs: Dict, text: string)
    requires research.Valid() && outputs.Valid()
  {
    exists r: Dict, o: Dict, shown ::
      && r.Valid() && o.Valid() && IsSummary(research, r) && IsSummary(outputs, o)
      && IsCut(ToJson(o), 32000, "8000", "execution_output", shown)
      && text == VerifierText(goal, planJson, ToJson(r), shown)
  }

  const VERIFIER_CLOSING :=
    "Verify completeness, factual_grounding, and format_compliance.\nOutput the verification report JSON."

  function VerifierText(goal: string, planJson: string, research: string, outputs: string): string {
    "Original goal: " + goal + "\n\n"
    + ("Task plan:\n" + planJson + "\n\n")
    + ("Research context (summarised):\n" + research + "\n\n")
    + ("Execution outputs:\n" + outputs + "\n\n")
    + VERIFIER_CLOSING
  }

  /** The outputs as the prompt shows them. */
  function Shown(outputs: Dict): string
    requires outputs.Valid()
  {
    MaybeSummariseValid(outputs);
    Truncate(ToJson(MaybeSummarise(outputs)), 32000, "execution_output")
  }

  lemma OutputsCut(json: string)
    ensures IsCut(json, 32000, "8000", "execution_output", Truncate(json, 32000, "execution_output"))
  {
    OneDigit(8);
    CutAtThousands(json, 8, "8", "8000", "execution_output");
  }

  lemma VerifierCut(text: string)
    ensures IsCut(text, 48000, "12000", "verifier_context", Truncate(text, 48000, "verifier_context"))
  {
    TwoDigits(1, 2);
    CutAtThousands(text, 12, "12", "12000", "verifier_context");
  }

  lemma VerifierTextIs(goal: string, planJson: string, research: Dict, outputs: Dict, r: Dict, o: Dict, shown: string)
    requires research.Valid() && outputs.Valid() && r.Valid() && o.Valid()
    requires IsSummary(research, r) && IsSummary(outputs, o) && IsCut(ToJson(o), 32000, "8000", "execution_output", shown)
    ensures IsVerifierText(goal, planJson, research, outputs, VerifierText(goal, planJson, ToJson(r), shown))
  {
  }

  lemma VerifierJoined(goal: string, planJson: string, research: string, outputs: string)
    ensures Join(["Original goal: " + goal, "Task plan:\n" + planJson, "Research context (summarised):\n" + research,
                  "Execution outputs:\n" + outputs, VERIFIER_CLOSING], "\n\n")
            == VerifierText(goal, planJson, research, outputs)
  {
    var h := ["Original goal: " + goal, "Task plan:\n" + planJson, "Research context (summarised):\n" + research,
              "Execution outputs:\n" + outputs];
    HeadJoined(h, VERIFIER_CLOSING);
    assert h + [VERIFIER_CLOSING] == [h[0], h[1], h[2], h[3], VERIFIER_CLOSING];
  }

  lemma VerifierParts(goal: string, planJson: string, research: Dict, outputs: Dict)
    requires research.Valid() && outputs.Valid() && MaybeSummarise(research).Valid()
    ensures VerifierContext(goal, planJson, research, outputs)
            == Truncate(VerifierText(goal, planJson, ToJson(MaybeSummarise(research)), Shown(outputs)), 48000,
                        "verifier_context")
  {
    VerifierJoined(goal, planJson, ToJson(MaybeSummarise(research)), Shown(outputs));
  }

  /** The verifier prompt is the goal, the plan, the summarised research and outputs as JSON, and the
      request, cut to 48000 characters. */
  lemma VerifierPromptSays(goal: string, planJson: string, research: Dict, outputs: Dict) returns (text: string)
    requires research.Valid() && outputs.Valid()
    ensures IsVerifierText(goal, planJson, research, outputs, text)
    ensures IsCut(text, 48000, "12000", "verifier_context", VerifierContext(goal, planJson, research, outputs))
  {
    MaybeSummariseValid(research);
    MaybeSummariseValid(outputs);
    SummaryIs(research);
    SummaryIs(outputs);
    OutputsCut(ToJson(MaybeSummarise(outputs)));
    text := VerifierText(goal, planJson, ToJson(MaybeSummarise(research)), Shown(outputs));
    VerifierTextIs(goal, planJson, research, outputs, MaybeSummarise(research), MaybeSummarise(outputs), Shown(outputs));
    VerifierParts(goal, planJson, research, outputs);
    VerifierCut(text);
  }
}
