/** backend/core/context.py: truncation, canonical maps, and the executor and verifier prompts. */
module Context {
  import opened Graphs
  import opened Sequences
  import opened TaskPlan

  const CHARS_PER_TOKEN := 4
  const EXECUTOR_INPUT_BUDGET := 8000 * CHARS_PER_TOKEN
  const VERIFIER_INPUT_BUDGET := 12000 * CHARS_PER_TOKEN
  const SUMMARISE_THRESHOLD := 6000 * CHARS_PER_TOKEN
  const ENTRY_LIMIT := 500 * CHARS_PER_TOKEN
  const DEPENDENCY_LIMIT := 1000 * CHARS_PER_TOKEN

  // ----- Truncation -----

  function Suffix(maxChars: nat, tag: string): string {
    "\n... [" + tag + " truncated to " + Digits(maxChars / CHARS_PER_TOKEN) + " tokens]"
  }

  function Truncate(text: string, maxChars: nat, tag: string): string {
    if |text| <= maxChars then
      text
    else
      var suffix := Suffix(maxChars, tag);
      SliceTo(text, maxChars - |suffix|) + suffix
  }

  predicate SuffixFits(maxChars: nat, tag: string) {
    |Suffix(maxChars, tag)| <= maxChars
  }

  /** The length bound holds exactly when nothing is cut or the suffix fits the limit;
      a cut text is then exactly the limit long. */
  lemma TruncateBound(text: string, maxChars: nat, tag: string)
    ensures |Truncate(text, maxChars, tag)| <= maxChars <==> |text| <= maxChars || SuffixFits(maxChars, tag)
    ensures |text| > maxChars && SuffixFits(maxChars, tag) ==> |Truncate(text, maxChars, tag)| == maxChars
  {
  }

  /** How much of a text of length n survives a cut: the room the suffix leaves, or, when the
      suffix is longer than the limit, all but the excess of the suffix. */
  function Kept(n: nat, maxChars: nat, tag: string): nat {
    var room := maxChars - |Suffix(maxChars, tag)|;
    if room >= 0 then room else if n + room >= 0 then n + room else 0
  }

  /** A cut text is a prefix of the text, of that length, followed by the suffix. */
  lemma TruncateShape(text: string, maxChars: nat, tag: string)
    requires |text| > maxChars
    ensures var kept := Kept(|text|, maxChars, tag);
            && kept <= |text|
            && Truncate(text, maxChars, tag)[..kept] == text[..kept]
            && Truncate(text, maxChars, tag)[kept..] == Suffix(maxChars, tag)
  {
  }

  /** The bound does fail: a key of two thousand characters has a suffix beyond the entry limit. */
  lemma LongKeyOverflows() returns (tag: string, text: string)
    ensures !SuffixFits(ENTRY_LIMIT, tag)
    ensures |Truncate(text, ENTRY_LIMIT, tag)| > ENTRY_LIMIT
  {
    tag := seq(ENTRY_LIMIT, _ => 'k');
    text := seq(ENTRY_LIMIT + 1, _ => 'v');
    TruncateBound(text, ENTRY_LIMIT, tag);
  }

  /** Cutting twice is cutting once exactly when nothing is cut, the suffix fits, or the limit is zero. */
  lemma TruncateIdempotentIff(text: string, maxChars: nat, tag: string)
    ensures Truncate(Truncate(text, maxChars, tag), maxChars, tag) == Truncate(text, maxChars, tag)
            <==> |text| <= maxChars || SuffixFits(maxChars, tag) || maxChars == 0
  {
    var suffix := Suffix(maxChars, tag);
    var once := Truncate(text, maxChars, tag);
    var twice := Truncate(once, maxChars, tag);
    if |text| > maxChars && |suffix| > maxChars {
      var kept := SliceTo(text, maxChars - |suffix|);
      assert once == kept + suffix;
      if maxChars == 0 {
        assert SliceTo(once, -|suffix|) == kept;
      } else {
        assert |twice| == |once| + maxChars;
      }
    }
  }

  // ----- Sorting -----

  predicate StrLe(a: string, b: string) {
    a == "" || (b != "" && (a[0] < b[0] || (a[0] == b[0] && StrLe(a[1..], b[1..]))))
  }

  lemma {:induction false} StrLeTotal(a: string, b: string)
    ensures StrLe(a, b) || StrLe(b, a)
    ensures StrLe(a, b) && StrLe(b, a) ==> a == b
  {
    if a == "" || b == "" || a[0] != b[0] {
    } else {
      StrLeTotal(a[1..], b[1..]);
      assert a == [a[0]] + a[1..] && b == [b[0]] + b[1..];
    }
  }

  lemma {:induction false} StrLeTransitive(a: string, b: string, c: string)
    requires StrLe(a, b) && StrLe(b, c)
    ensures StrLe(a, c)
  {
    if a == "" || a[0] != b[0] || b[0] != c[0] {
    } else {
      StrLeTransitive(a[1..], b[1..], c[1..]);
    }
  }

  ghost predicate Sorted(s: seq<string>) {
    forall i, j :: 0 <= i < j < |s| ==> StrLe(s[i], s[j])
  }

  function Insert(x: string, s: seq<string>): seq<string> {
    if s == [] || StrLe(x, s[0]) then [x] + s else [s[0]] + Insert(x, s[1..])
  }

  /** sorted(s) */
  function Sort(s: seq<string>): seq<string> {
    if s == [] then [] else Insert(s[0], Sort(s[1..]))
  }

  lemma {:induction false} InsertSorts(x: string, s: seq<string>)
    requires Sorted(s)
    ensures Sorted(Insert(x, s)) && multiset(Insert(x, s)) == multiset(s) + multiset{x}
  {
    if s == [] {
    } else if StrLe(x, s[0]) {
      forall j | 0 <= j < |s|
        ensures StrLe(x, s[j])
      {
        if j > 0 {
          StrLeTransitive(x, s[0], s[j]);
        }
      }
    } else {
      StrLeTotal(x, s[0]);
      InsertSorts(x, s[1..]);
      var rest := Insert(x, s[1..]);
      assert s == [s[0]] + s[1..];
      forall j | 0 <= j < |rest|
        ensures StrLe(s[0], rest[j])
      {
        assert rest[j] in multiset(s[1..]) + multiset{x};
        if rest[j] != x {
          assert rest[j] in s[1..];
        }
      }
    }
  }

  lemma {:induction false} SortSorts(s: seq<string>)
    ensures Sorted(Sort(s)) && multiset(Sort(s)) == multiset(s)
  {
    if s == [] {
    } else {
      SortSorts(s[1..]);
      InsertSorts(s[0], Sort(s[1..]));
      assert multiset(s) == multiset(s[1..]) + multiset{s[0]} by { assert s == [s[0]] + s[1..]; }
    }
  }

  lemma {:induction false} SortedUnique(a: seq<string>, b: seq<string>)
    requires Sorted(a) && Sorted(b) && multiset(a) == multiset(b)
    ensures a == b
  {
    if a == [] {
      assert |multiset(b)| == 0;
    } else {
      SameHead(a, b);
      assert multiset(a[1..]) == multiset(a) - multiset{a[0]} by { assert a == [a[0]] + a[1..]; }
      assert multiset(b[1..]) == multiset(b) - multiset{b[0]} by { assert b == [b[0]] + b[1..]; }
      SortedUnique(a[1..], b[1..]);
      assert a == [a[0]] + a[1..] && b == [b[0]] + b[1..];
    }
  }

  lemma SameHead(a: seq<string>, b: seq<string>)
    requires Sorted(a) && Sorted(b) && multiset(a) == multiset(b) && a != []
    ensures b != [] && a[0] == b[0]
  {
    assert a[0] in multiset(b);
    assert b[0] in multiset(a);
    var i :| 0 <= i < |b| && b[i] == a[0];
    var j :| 0 <= j < |a| && a[j] == b[0];
    StrLeTotal(a[0], b[0]);
    StrLeTotal(a[0], a[0]);
  }

  /** Sorting forgets the order it was given. */
  lemma SortIsCanonical(a: seq<string>, b: seq<string>)
    requires multiset(a) == multiset(b)
    ensures Sort(a) == Sort(b)
  {
    SortSorts(a);
    SortSorts(b);
    SortedUnique(Sort(a), Sort(b));
  }

  // ----- Insertion-ordered dictionaries -----

  /** A Python dict: distinct keys in insertion order, and their values. */
  datatype Dict = Dict(keys: seq<string>, values: map<string, string>) {
    predicate Valid() {
      Distinct(keys) && values.Keys == set k | k in keys
    }
  }

  /** Equal as dictionaries: the same keys with the same values, in whatever order. */
  predicate SameContents(a: Dict, b: Dict) {
    a.values == b.values
  }

  /** dict(sorted(mapping.items())) */
  function SortedDict(d: Dict): Dict {
    Dict(Sort(d.keys), d.values)
  }

  lemma SortedDictValid(d: Dict)
    requires d.Valid()
    ensures SortedDict(d).Valid() && SortedDict(SortedDict(d)) == SortedDict(d)
  {
    SortSorts(d.keys);
    SortSorts(Sort(d.keys));
    SortedUnique(Sort(d.keys), Sort(Sort(d.keys)));
    forall i, j | 0 <= i < j < |Sort(d.keys)|
      ensures Sort(d.keys)[i] != Sort(d.keys)[j]
    {
      if Sort(d.keys)[i] == Sort(d.keys)[j] {
        TwiceInMultiset(Sort(d.keys), i, j);
        DistinctCount(d.keys, Sort(d.keys)[i]);
      }
    }
    forall k
      ensures k in Sort(d.keys) <==> k in d.keys
    {
      assert k in Sort(d.keys) <==> k in multiset(Sort(d.keys));
      assert k in d.keys <==> k in multiset(d.keys);
    }
  }

  lemma TwiceInMultiset(s: seq<string>, i: nat, j: nat)
    requires i < j < |s| && s[i] == s[j]
    ensures multiset(s)[s[i]] >= 2
  {
    assert s == s[..j] + [s[j]] + s[j + 1..];
    assert s[..j][i] == s[i];
    assert s[i] in multiset(s[..j]);
  }

  lemma SortedDictCanonical(a: Dict, b: Dict)
    requires a.Valid() && b.Valid() && SameContents(a, b)
    ensures SortedDict(a) == SortedDict(b)
  {
    forall k
      ensures k in a.keys <==> k in b.keys
    {
      assert k in a.keys <==> k in a.values;
      assert k in b.keys <==> k in b.values;
    }
    SameElementsSameMultiset(a.keys, b.keys);
    SortIsCanonical(a.keys, b.keys);
  }

  // ----- JSON -----

  function EscapeChar(c: char): string {
    if c == '\"' then "\\\""
    else if c == '\\' then "\\\\"
    else if c == '\n' then "\\n"
    else if c == '\r' then "\\r"
    else if c == '\t' then "\\t"
    else if c == 8 as char then "\\b"
    else if c == 12 as char then "\\f"
    else if c < ' ' then
      var n := c as int;
      "\\u00" + [HEX[n / 16]] + [HEX[n % 16]]
    else [c]
  }

  function Escape(s: string): string {
    if s == "" then "" else EscapeChar(s[0]) + Escape(s[1..])
  }

  function Quote(s: string): string {
    "\"" + Escape(s) + "\""
  }

  /** json.dumps(d, sort_keys=True, ensure_ascii=False) */
  function ToJson(d: Dict): string
    requires d.Valid()
  {
    SortSorts(d.keys);
    "{" + Join(JsonMembers(Sort(d.keys), d.values), ", ") + "}"
  }

  function JsonMembers(keys: seq<string>, values: map<string, string>): seq<string> {
    seq(|keys|, i requires 0 <= i < |keys| =>
      Quote(keys[i]) + ": " + Quote(if keys[i] in values then values[keys[i]] else ""))
  }

  lemma ToJsonCanonical(a: Dict, b: Dict)
    requires a.Valid() && b.Valid() && SameContents(a, b)
    ensures ToJson(a) == ToJson(b)
  {
    SortedDictCanonical(a, b);
  }

  // ----- Summarising -----

  function SummariseMap(d: Dict, entryLimit: nat): Dict {
    Dict(Sort(d.keys), map k | k in d.values :: Truncate(d.values[k], entryLimit, k))
  }

  function MaybeSummarise(d: Dict): Dict
    requires d.Valid()
  {
    if |ToJson(d)| > SUMMARISE_THRESHOLD then SummariseMap(d, ENTRY_LIMIT) else SortedDict(d)
  }

  lemma MaybeSummariseValid(d: Dict)
    requires d.Valid()
    ensures MaybeSummarise(d).Valid()
  {
    SortedDictValid(d);
  }

  /** The summary depends on the contents of the map, not on its insertion order. */
  lemma MaybeSummariseCanonical(a: Dict, b: Dict)
    requires a.Valid() && b.Valid() && SameContents(a, b)
    ensures MaybeSummarise(a) == MaybeSummarise(b)
  {
    ToJsonCanonical(a, b);
    SortedDictCanonical(a, b);
  }

  /** Summarising a summary changes nothing when each key's suffix fits the entry limit. */
  lemma MaybeSummariseIdempotent(d: Dict)
    requires d.Valid()
    requires forall k :: k in d.keys ==> SuffixFits(ENTRY_LIMIT, k)
    ensures MaybeSummarise(d).Valid() && MaybeSummarise(MaybeSummarise(d)) == MaybeSummarise(d)
  {
    MaybeSummariseValid(d);
    var once := MaybeSummarise(d);
    SortedDictValid(d);
    if |ToJson(d)| > SUMMARISE_THRESHOLD {
      forall k | k in d.values
        ensures Truncate(once.values[k], ENTRY_LIMIT, k) == once.values[k]
      {
        assert k in d.keys;
        TruncateIdempotentIff(d.values[k], ENTRY_LIMIT, k);
      }
      assert SummariseMap(once, ENTRY_LIMIT).values == once.values;
    } else {
      ToJsonCanonical(once, d);
    }
  }

  /** build_verifier_context, given the plan already rendered as JSON. */
  function VerifierContext(goal: string, planJson: string, research: Dict, outputs: Dict): string
    requires research.Valid() && outputs.Valid()
  {
    MaybeSummariseValid(research);
    MaybeSummariseValid(outputs);
    Truncate(
      Join([
             "Original goal: " + goal,
             "Task plan:\n" + planJson,
             "Research context (summarised):\n" + ToJson(MaybeSummarise(research)),
             "Execution outputs:\n" + Truncate(ToJson(MaybeSummarise(outputs)), 8000 * CHARS_PER_TOKEN, "execution_output"),
             "Verify completeness, factual_grounding, and format_compliance.\nOutput the verification report JSON."
           ], "\n\n"),
      VERIFIER_INPUT_BUDGET, "verifier_context")
  }

  /** The verifier prompt is the same for every insertion order of its two maps. */
  lemma {:induction false} VerifierContextCanonical(goal: string, planJson: string, r1: Dict, r2: Dict, o1: Dict, o2: Dict)
    requires r1.Valid() && r2.Valid() && o1.Valid() && o2.Valid()
    requires SameContents(r1, r2) && SameContents(o1, o2)
    ensures VerifierContext(goal, planJson, r1, o1) == VerifierContext(goal, planJson, r2, o2)
  {
    MaybeSummariseCanonical(r1, r2);
    MaybeSummariseCanonical(o1, o2);
  }

  // ----- The executor prompt -----

  /** What the prompt shows of a dependency, given the outputs recorded in the state. */
  function DependencyText(dep: Id, outputs: map<Id, string>): string {
    Truncate(if dep in outputs then outputs[dep] else "(no output)", DEPENDENCY_LIMIT, dep)
  }

  function DependencyLines(deps: seq<Id>, outputs: map<Id, string>): seq<string> {
    seq(|deps|, i requires 0 <= i < |deps| => "- " + deps[i] + ": " + DependencyText(deps[i], outputs))
  }

  const CLOSING := "Generate a Python script. Use print() for captured output."

  /** The parts of the prompt before the dependency section. */
  function ExecutorHead(task: Task, research: map<Id, string>): seq<string> {
    var found := if task.id in research then research[task.id] else "No research context available.";
    [
      "Task ID: " + task.id,
      "Description: " + task.description,
      "Tool hints: " + Join(task.toolHints, ", "),
      "Research context for this task:\n" + Truncate(found, 3000 * CHARS_PER_TOKEN, "research_context")
    ]
  }

  function DependencySection(task: Task, outputs: map<Id, string>): seq<string> {
    var lines := DependencyLines(Sort(task.dependsOn), outputs);
    if lines != [] then ["Outputs from dependencies:\n" + Join(lines, "\n")] else []
  }

  /** The prompt before it is cut to its budget. */
  function ExecutorText(task: Task, research: map<Id, string>, outputs: map<Id, string>): string {
    Join(ExecutorHead(task, research) + DependencySection(task, outputs) + [CLOSING], "\n\n")
  }

  /** build_executor_context */
  function ExecutorContext(task: Task, research: map<Id, string>, outputs: map<Id, string>): string {
    Truncate(ExecutorText(task, research, outputs), EXECUTOR_INPUT_BUDGET, "executor_context")
  }

  // ----- What of its dependencies a prompt can show -----

  /** The first dependency in the order of the prompt. */
  function FirstDependency(task: Task): Id
    requires task.dependsOn != []
  {
    SortSorts(task.dependsOn);
    assert |multiset(Sort(task.dependsOn))| == |multiset(task.dependsOn)|;
    Sort(task.dependsOn)[0]
  }

  lemma FirstDependencyListed(task: Task)
    requires task.dependsOn != []
    ensures FirstDependency(task) in task.dependsOn
  {
    SortSorts(task.dependsOn);
    assert FirstDependency(task) in multiset(task.dependsOn);
  }

  /** The prompt up to the output of the first dependency. */
  function LeadIn(task: Task, research: map<Id, string>): string
    requires task.dependsOn != []
  {
    Join(ExecutorHead(task, research), "\n\n") + "\n\n"
    + "Outputs from dependencies:\n" + "- " + FirstDependency(task) + ": "
  }

  /** How many characters of a text over the budget survive. */
  const EXECUTOR_KEPT := EXECUTOR_INPUT_BUDGET - |Suffix(EXECUTOR_INPUT_BUDGET, "executor_context")|

  /** The prompt has room for some of the output of a dependency. */
  predicate ShowsDependencies(task: Task, research: map<Id, string>) {
    task.dependsOn != [] && |LeadIn(task, research)| < EXECUTOR_KEPT
  }

  /** What follows the output of the first dependency, given all the dependency lines. */
  function AfterFirst(lines: seq<string>): string {
    (if |lines| <= 1 then "" else "\n" + Join(lines[1..], "\n")) + "\n\n" + CLOSING
  }

  lemma JoinSections(head: seq<string>, section: string, closing: string, separator: string)
    requires head != []
    ensures Join(head + [section] + [closing], separator)
            == Join(head, separator) + separator + section + separator + closing
  {
    JoinConcat(head, [section] + [closing], separator);
    assert head + [section] + [closing] == head + ([section] + [closing]);
  }

  lemma JoinFirst(lines: seq<string>, separator: string)
    requires lines != []
    ensures Join(lines, separator) == lines[0] + if |lines| <= 1 then "" else separator + Join(lines[1..], separator)
  {
  }

  lemma FirstLine(task: Task, outputs: map<Id, string>)
    requires task.dependsOn != []
    ensures var lines := DependencyLines(Sort(task.dependsOn), outputs);
            && lines != []
            && lines[0] == "- " + FirstDependency(task) + ": " + DependencyText(FirstDependency(task), outputs)
  {
    var d := FirstDependency(task);
  }

  lemma SectionText(head: seq<string>, lines: seq<string>, d: Id, text: string)
    requires head != [] && lines != [] && lines[0] == "- " + d + ": " + text
    ensures Join(head + ["Outputs from dependencies:\n" + Join(lines, "\n")] + [CLOSING], "\n\n")
            == Join(head, "\n\n") + "\n\n" + "Outputs from dependencies:\n" + "- " + d + ": " + text + AfterFirst(lines)
  {
    var more := if |lines| <= 1 then "" else "\n" + Join(lines[1..], "\n");
    JoinFirst(lines, "\n");
    JoinSections(head, "Outputs from dependencies:\n" + Join(lines, "\n"), CLOSING, "\n\n");
    Reassociate(Join(head, "\n\n"), "\n\n", "Outputs from dependencies:\n", "- ", d, ": ", text, more, CLOSING);
  }

  lemma TextShape(task: Task, research: map<Id, string>, outputs: map<Id, string>)
    requires task.dependsOn != []
    ensures ExecutorText(task, research, outputs)
            == LeadIn(task, research) + DependencyText(FirstDependency(task), outputs)
               + AfterFirst(DependencyLines(Sort(task.dependsOn), outputs))
  {
    var lines := DependencyLines(Sort(task.dependsOn), outputs);
    FirstLine(task, outputs);
    SectionText(ExecutorHead(task, research), lines, FirstDependency(task), DependencyText(FirstDependency(task), outputs));
    assert DependencySection(task, outputs) == ["Outputs from dependencies:\n" + Join(lines, "\n")];
  }

  lemma Reassociate(head: string, gap: string, title: string, dash: string, d: string, colon: string,
                    text: string, more: string, closing: string)
    ensures head + gap + (title + (dash + d + colon + text + more)) + gap + closing
            == head + gap + title + dash + d + colon + text + (more + gap + closing)
  {
  }

  /** Texts over the limit that agree on what survives are cut to the same text. */
  lemma CutAlike(a: string, b: string, lead: string, maxChars: nat, tag: string)
    requires lead <= a && lead <= b && |a| > maxChars && |b| > maxChars
    requires SuffixFits(maxChars, tag) && |lead| >= maxChars - |Suffix(maxChars, tag)|
    ensures Truncate(a, maxChars, tag) == Truncate(b, maxChars, tag)
  {
    var n := maxChars - |Suffix(maxChars, tag)|;
    assert a[..n] == lead[..n] && b[..n] == lead[..n];
  }

  /** A character before the cut is still there. */
  lemma CutKeeps(text: string, n: nat, maxChars: nat, tag: string)
    requires n < |text| && n < maxChars - |Suffix(maxChars, tag)|
    ensures n < |Truncate(text, maxChars, tag)| && Truncate(text, maxChars, tag)[n] == text[n]
  {
  }

  lemma BudgetRoom()
    ensures EXECUTOR_KEPT + |CLOSING| > EXECUTOR_INPUT_BUDGET
  {
    DigitsOfThousands(8);
  }

  /** What follows a lead-in that fills the kept part takes the text over the budget. */
  lemma FilledIsCut(task: Task, research: map<Id, string>, outputs: map<Id, string>)
    requires task.dependsOn != [] && |LeadIn(task, research)| >= EXECUTOR_KEPT
    ensures |ExecutorText(task, research, outputs)| > EXECUTOR_INPUT_BUDGET
    ensures LeadIn(task, research) <= ExecutorText(task, research, outputs)
  {
    TextShape(task, research, outputs);
    BudgetRoom();
    AfterFirstIsLong(DependencyLines(Sort(task.dependsOn), outputs));
  }

  lemma AfterFirstIsLong(lines: seq<string>)
    ensures |AfterFirst(lines)| > |CLOSING| && AfterFirst(lines)[0] == '\n'
  {
  }

  /** A prompt without dependencies, or filled before it reaches them, does not depend on the outputs. */
  lemma OutputsDoNotShow(task: Task, research: map<Id, string>, o1: map<Id, string>, o2: map<Id, string>)
    requires !ShowsDependencies(task, research)
    ensures ExecutorContext(task, research, o1) == ExecutorContext(task, research, o2)
  {
    if task.dependsOn != [] {
      FilledIsCut(task, research, o1);
      FilledIsCut(task, research, o2);
      BudgetSuffixesFit();
      CutAlike(ExecutorText(task, research, o1), ExecutorText(task, research, o2), LeadIn(task, research),
               EXECUTOR_INPUT_BUDGET, "executor_context");
    }
  }

  /** The first character of the first dependency's output, or the line break in its place. */
  function FirstShown(task: Task, outputs: map<Id, string>): char
    requires task.dependsOn != []
  {
    var text := DependencyText(FirstDependency(task), outputs);
    if text == "" then '\n' else text[0]
  }

  lemma FirstShownInPrompt(task: Task, research: map<Id, string>, outputs: map<Id, string>)
    requires ShowsDependencies(task, research)
    ensures var n := |LeadIn(task, research)|;
            && n < |ExecutorContext(task, research, outputs)|
            && ExecutorContext(task, research, outputs)[n] == FirstShown(task, outputs)
  {
    TextShape(task, research, outputs);
    AfterFirstIsLong(DependencyLines(Sort(task.dependsOn), outputs));
    CutKeeps(ExecutorText(task, research, outputs), |LeadIn(task, research)|, EXECUTOR_INPUT_BUDGET, "executor_context");
  }

  /** A prompt with room shows how the output of the first dependency begins. */
  lemma FirstDependencyShows(task: Task, research: map<Id, string>, o1: map<Id, string>, o2: map<Id, string>)
    requires ShowsDependencies(task, research) && FirstShown(task, o1) != FirstShown(task, o2)
    ensures ExecutorContext(task, research, o1) != ExecutorContext(task, research, o2)
  {
    FirstShownInPrompt(task, research, o1);
    FirstShownInPrompt(task, research, o2);
  }

  /** The prompt does not depend on the order in which a task lists its dependencies. */
  lemma ExecutorContextIgnoresOrder(task: Task, deps: seq<Id>, research: map<Id, string>, outputs: map<Id, string>)
    requires multiset(deps) == multiset(task.dependsOn)
    ensures ExecutorContext(task.(dependsOn := deps), research, outputs) == ExecutorContext(task, research, outputs)
  {
    SortIsCanonical(deps, task.dependsOn);
  }

  /** Scoped injection: of the shared state the prompt reads only the task's own research entry and
      the outputs of its own dependencies. */
  lemma ExecutorContextScoped(task: Task, r1: map<Id, string>, r2: map<Id, string>, o1: map<Id, string>, o2: map<Id, string>)
    requires task.id in r1 <==> task.id in r2
    requires task.id in r1 ==> r1[task.id] == r2[task.id]
    requires forall d :: d in task.dependsOn ==> (d in o1 <==> d in o2) && (d in o1 ==> o1[d] == o2[d])
    ensures ExecutorContext(task, r1, o1) == ExecutorContext(task, r2, o2)
  {
    var deps := Sort(task.dependsOn);
    SortSorts(task.dependsOn);
    assert DependencyLines(deps, o1) == DependencyLines(deps, o2) by {
      forall i | 0 <= i < |deps|
        ensures DependencyText(deps[i], o1) == DependencyText(deps[i], o2)
      {
        assert deps[i] in multiset(task.dependsOn);
      }
    }
  }

  /** The executor prompt never exceeds its input budget. */
  lemma ExecutorContextWithinBudget(task: Task, research: map<Id, string>, outputs: map<Id, string>)
    ensures |ExecutorContext(task, research, outputs)| <= EXECUTOR_INPUT_BUDGET
  {
    BudgetSuffixesFit();
  }

  /** The verifier prompt never exceeds its input budget. */
  lemma VerifierContextWithinBudget(goal: string, planJson: string, research: Dict, outputs: Dict)
    requires research.Valid() && outputs.Valid()
    ensures |VerifierContext(goal, planJson, research, outputs)| <= VERIFIER_INPUT_BUDGET
  {
    BudgetSuffixesFit();
  }

  lemma BudgetSuffixesFit()
    ensures SuffixFits(EXECUTOR_INPUT_BUDGET, "executor_context")
    ensures SuffixFits(VERIFIER_INPUT_BUDGET, "verifier_context")
  {
    SuffixOfThousands(8, "executor_context");
    SuffixOfThousands(12, "verifier_context");
  }

  /** A limit given in thousands of tokens has room for the suffix of any short tag. */
  lemma SuffixOfThousands(n: nat, tag: string)
    requires 0 < n < 100 && |tag| <= 100
    ensures SuffixFits(1000 * n * CHARS_PER_TOKEN, tag)
  {
    DigitsOfThousands(n);
    assert 1000 * n * CHARS_PER_TOKEN / CHARS_PER_TOKEN == 1000 * n;
  }

  lemma DigitsOfThousands(n: nat)
    requires n < 100
    ensures |Digits(1000 * n)| <= 5
  {
    assert 1000 * n / 10 == 100 * n && 100 * n / 10 == 10 * n && 10 * n / 10 == n;
    assert |Digits(n)| <= 2;
    assert |Digits(10 * n)| <= 3;
    assert |Digits(100 * n)| <= 4;
  }
}
