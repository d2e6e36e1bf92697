/**
 The gateway's own routing rule: reading `ip -o rule show` and converging on one rule
 (vpn-gateway-agent/netctl/netctl.go).

 The kernel's table is a sequence of rules; a rule of ours is printed as the kernel prints a plain
 source rule, and any other rule is the line it is printed as.
 */
module LanBypass {
  import opened Wrappers
  import opened Ordering
  import opened Text

  datatype Rule = Bypass(source: string) | Other(line: string)

  // ---- Text, as Go's strings package reads it ----

  /** Go's unicode.IsSpace on ASCII text, which is all the command prints. */
  predicate IsGoSpace(c: char) {
    c == ' ' || '\t' <= c <= '\r'
  }

  /** The first position from i on that holds no space. */
  function SkipSpaces(s: string, i: nat): (j: nat)
    requires i <= |s|
    ensures i <= j <= |s|
    decreases |s| - i
  {
    if i < |s| && IsGoSpace(s[i]) then SkipSpaces(s, i + 1) else i
  }

  /** The end of s[i..j] without the spaces at its end. */
  function DropSpaces(s: string, i: nat, j: nat): (end: nat)
    requires i <= j <= |s|
    ensures i <= end <= j
  {
    if i < j && IsGoSpace(s[j - 1]) then DropSpaces(s, i, j - 1) else j
  }

  function TrimSpace(s: string): string {
    var i := SkipSpaces(s, 0);
    s[i..DropSpaces(s, i, |s|)]
  }

  predicate At(s: string, k: int, part: string) {
    0 <= k <= |s| - |part| && s[k..k + |part|] == part
  }

  predicate Contains(s: string, part: string) {
    exists k :: 0 <= k <= |s| && At(s, k, part)
  }

  function WordEnd(s: string, i: nat): (j: nat)
    requires i <= |s|
    ensures i <= j <= |s|
    decreases |s| - i
  {
    if i == |s| || IsGoSpace(s[i]) then i else WordEnd(s, i + 1)
  }

  /** strings.Fields, from position i on. */
  function WordsFrom(s: string, i: nat): seq<string>
    requires i <= |s|
    decreases |s| - i
  {
    if i == |s| then []
    else if IsGoSpace(s[i]) then WordsFrom(s, i + 1)
    else [s[i..WordEnd(s, i + 1)]] + WordsFrom(s, WordEnd(s, i + 1))
  }

  function Words(s: string): seq<string> {
    WordsFrom(s, 0)
  }

  // ---- Reading the rules ----

  const PREFIX := "100:"
  const LOOKUP := "lookup main"

  function Want(lanIp: string): string {
    "from " + lanIp + " lookup main"
  }

  predicate IsOnMainTable(trimmed: string) {
    StartsWith(trimmed, PREFIX) && Contains(trimmed, LOOKUP)
  }

  function StaleField(fields: seq<string>, lanIp: string): seq<string> {
    if |fields| < 3 || fields[1] != "from" || fields[2] == lanIp then [] else [fields[2]]
  }

  /** The stale source a line shows, if it does. */
  function StaleIn(lanIp: string): string -> seq<string> {
    (line: string) => if IsOnMainTable(TrimSpace(line)) then StaleField(Words(TrimSpace(line)), lanIp) else []
  }

  predicate ShowsOurs(line: string, lanIp: string) {
    StartsWith(TrimSpace(line), PREFIX) && Contains(line, Want(lanIp))
  }

  method GatherAll(lines: seq<string>, f: string -> seq<string>) returns (found: seq<string>)
    ensures found == Flat(lines, f)
  {
    found := [];
    for i := 0 to |lines|
      invariant Flat(lines, f) == found + Flat(lines[i..], f)
    {
      assert lines[i..][1..] == lines[i + 1..];
      found := found + f(lines[i]);
    }
  }

  /** staleLanBypassSources. */
  method StaleSources(stdout: string, lanIp: string) returns (stale: seq<string>)
    ensures stale == Flat(Split(stdout, '\n'), StaleIn(lanIp))
  {
    stale := GatherAll(Split(stdout, '\n'), StaleIn(lanIp));
  }

  /** lanBypassRulePresent. */
  method RulePresent(stdout: string, lanIp: string) returns (present: bool)
    ensures present <==> AnyShowsOurs(Split(stdout, '\n'), lanIp)
  {
    var lines := Split(stdout, '\n');
    for i := 0 to |lines|
      invariant forall k :: 0 <= k < i ==> !ShowsOurs(lines[k], lanIp)
    {
      if ShowsOurs(lines[i], lanIp) { return true; }
    }
    return false;
  }

  // ---- What is printed is read back ----

  /** An address: one word. */
  predicate IsWord(s: string) {
    s != "" && forall i :: 0 <= i < |s| ==> !IsGoSpace(s[i])
  }

  /** A line that is not of a priority-100 rule on the main table. */
  ghost predicate IsForeign(line: string) {
    '\n' !in line && !(StartsWith(TrimSpace(line), PREFIX) && Contains(line, LOOKUP))
  }

  /** The tables considered: every priority-100 rule on the main table is a plain source rule. */
  ghost predicate IsTable(rules: seq<Rule>) {
    forall i :: 0 <= i < |rules| ==> IsRule(rules[i])
  }

  ghost predicate IsRule(rule: Rule) {
    match rule case Bypass(source) => IsWord(source) case Other(line) => IsForeign(line)
  }

  function Line(rule: Rule): string {
    match rule
    case Bypass(source) => "100:\tfrom " + source + " lookup main"
    case Other(line) => line
  }

  function Show(rules: seq<Rule>): string {
    if rules == [] then "" else Line(rules[0]) + ['\n'] + Show(rules[1..])
  }

  function Lines(rules: seq<Rule>): seq<string> {
    if rules == [] then [""] else [Line(rules[0])] + Lines(rules[1..])
  }

  lemma BypassLineHasNoBreak(source: string)
    requires IsWord(source)
    ensures '\n' !in Line(Bypass(source))
  {
    var line := Line(Bypass(source));
    assert forall i :: 0 <= i < |source| ==> line[10 + i] == source[i];
    assert forall i :: 0 <= i < 10 ==> line[i] == "100:\tfrom "[i];
    assert forall i :: 10 + |source| <= i < |line| ==> line[i] == " lookup main"[i - 10 - |source|];
  }

  lemma {:induction false} ShownLines(rules: seq<Rule>)
    requires IsTable(rules)
    ensures Split(Show(rules), '\n') == Lines(rules)
  {
    if rules != [] {
      ShownLines(rules[1..]);
      if rules[0].Bypass? { BypassLineHasNoBreak(rules[0].source); }
      SplitAtFirst(Line(rules[0]), Show(rules[1..]), '\n');
    }
  }

  lemma {:induction false} WordEndIs(s: string, i: nat, j: nat)
    requires i <= j < |s| && IsGoSpace(s[j]) && forall k :: i <= k < j ==> !IsGoSpace(s[k])
    ensures WordEnd(s, i) == j
    decreases j - i
  {
    if i < j { WordEndIs(s, i + 1, j); }
  }

  lemma NextWord(s: string, i: nat, j: nat)
    requires i < j < |s| && IsGoSpace(s[j]) && forall k :: i <= k < j ==> !IsGoSpace(s[k])
    ensures WordsFrom(s, i) == [s[i..j]] + WordsFrom(s, j + 1)
  {
    WordEndIs(s, i + 1, j);
    assert WordsFrom(s, j) == WordsFrom(s, j + 1);
  }

  lemma LineIs(source: string)
    ensures var line := Line(Bypass(source));
            && |line| == 22 + |source| && line[..4] == PREFIX && line[5..9] == "from"
                && line[10..10 + |source|] == source
            && line[4] == '\t' && line[9] == ' ' && line[10 + |source|] == ' ' && line[|line| - 1] == 'n'
            && line[11 + |source|..] == LOOKUP
  {
    var line := Line(Bypass(source));
    assert line == "100:\tfrom " + (source + " lookup main");
    assert line[10..] == source + " lookup main";
  }

  lemma NoSpaceIn(s: string, i: nat, j: nat, word: string)
    requires i <= j <= |s| && s[i..j] == word && IsWord(word)
    ensures forall k :: i <= k < j ==> !IsGoSpace(s[k])
  {
    forall k | i <= k < j ensures !IsGoSpace(s[k]) { assert s[k] == word[k - i]; }
  }

  lemma FirstWordsAreWords()
    ensures IsWord(PREFIX) && IsWord("from")
  {
  }

  /** The fields of a rule of ours start with 100:, from and the source. */
  lemma BypassWords(line: string, source: string)
    requires IsWord(source) && |line| == 22 + |source|
    requires line[..4] == PREFIX && line[5..9] == "from" && line[10..10 + |source|] == source
    requires line[4] == '\t' && line[9] == ' ' && line[10 + |source|] == ' '
    ensures var fields := Words(line); |fields| >= 3 && fields[1] == "from" && fields[2] == source
  {
    FirstWordsAreWords();
    assert line[0..4] == line[..4];
    NoSpaceIn(line, 0, 4, PREFIX);
    NextWord(line, 0, 4);
    NoSpaceIn(line, 5, 9, "from");
    NextWord(line, 5, 9);
    NoSpaceIn(line, 10, 10 + |source|, source);
    NextWord(line, 10, 10 + |source|);
  }

  lemma BypassLineIsTrimmed(source: string)
    ensures TrimSpace(Line(Bypass(source))) == Line(Bypass(source))
  {
    var line := Line(Bypass(source));
    LineIs(source);
    assert line[0] == line[..4][0] == '1';
    assert line[0..|line|] == line;
  }

  lemma BypassLineLooksUpMain(source: string)
    ensures IsOnMainTable(Line(Bypass(source)))
  {
    var line := Line(Bypass(source));
    LineIs(source);
    assert |LOOKUP| == 11;
    assert At(line, 11 + |source|, LOOKUP);
  }

  lemma BypassShowsItself(source: string)
    ensures Contains(Line(Bypass(source)), Want(source))
  {
    assert At(Line(Bypass(source)), 5, Want(source));
  }

  /** Where a blank can stand in a rule of ours. */
  lemma BlanksOfLine(source: string, k: nat)
    requires IsWord(source) && k < |Line(Bypass(source))| && Line(Bypass(source))[k] == ' '
    ensures k == 9 || k == 10 + |source| || k == 17 + |source|
  {
    var line := Line(Bypass(source));
    LineIs(source);
    NoSpaceIn(line, 10, 10 + |source|, source);
    assert k < 10 ==> line[k] == "100:\tfrom "[k];
    assert k >= 11 + |source| ==> line[k] == LOOKUP[k - 11 - |source|];
  }

  lemma AtMeans(s: string, k: int, part: string, j: nat)
    requires At(s, k, part) && j < |part|
    ensures s[k + j] == part[j]
  {
    assert s[k..k + |part|][j] == part[j];
  }

  lemma WantIs(lanIp: string)
    ensures |Want(lanIp)| == 17 + |lanIp| && Want(lanIp)[4] == ' ' && Want(lanIp)[5 + |lanIp|] == ' '
    ensures forall j :: 0 <= j < |lanIp| ==> Want(lanIp)[5 + j] == lanIp[j]
  {
  }

  /** The text searched for is found in a rule of ours only if it is the rule of that very address. */
  lemma OnlyItsOwnIsFound(source: string, lanIp: string, k: int)
    requires IsWord(source) && At(Line(Bypass(source)), k, Want(lanIp))
    ensures source == lanIp
  {
    var line, want := Line(Bypass(source)), Want(lanIp);
    WantIs(lanIp);
    LineIs(source);
    AtMeans(line, k, want, 4);
    BlanksOfLine(source, k + 4);
    AtMeans(line, k, want, 5 + |lanIp|);
    BlanksOfLine(source, k + 5 + |lanIp|);
    assert k == 5 && |lanIp| == |source|;
    forall j | 0 <= j < |lanIp| ensures lanIp[j] == source[j] {
      AtMeans(line, k, want, 5 + j);
      assert line[10..10 + |source|][j] == line[10 + j];
    }
  }

  lemma AtInPart(s: string, from: nat, to: nat, k: nat, part: string)
    requires from <= to <= |s| && At(s[from..to], k, part)
    ensures At(s, from + k, part)
  {
    var inside := s[from..to];
    forall j | 0 <= j < |part| ensures s[from + k..from + k + |part|][j] == part[j] {
      assert inside[k..k + |part|][j] == part[j];
    }
  }

  lemma TrimIsPart(s: string, part: string)
    requires Contains(TrimSpace(s), part)
    ensures Contains(s, part)
  {
    var i := SkipSpaces(s, 0);
    var end := DropSpaces(s, i, |s|);
    var k :| 0 <= k <= |s[i..end]| && At(s[i..end], k, part);
    AtInPart(s, i, end, k, part);
  }

  lemma WantLooksUpMain(line: string, lanIp: string)
    requires Contains(line, Want(lanIp))
    ensures Contains(line, LOOKUP)
  {
    var k :| 0 <= k <= |line| && At(line, k, Want(lanIp));
    WantIs(lanIp);
    assert At(Want(lanIp), 6 + |lanIp|, LOOKUP);
    AtInPart(line, k, k + |Want(lanIp)|, 6 + |lanIp|, LOOKUP);
  }

  lemma StaleOfFields(line: string, lanIp: string, fields: seq<string>)
    requires TrimSpace(line) == line && IsOnMainTable(line) && Words(line) == fields
    ensures StaleIn(lanIp)(line) == StaleField(fields, lanIp)
  {
  }

  lemma BypassIsStaleExactlyWhen(source: string, lanIp: string)
    requires IsWord(source)
    ensures StaleIn(lanIp)(Line(Bypass(source))) == if source != lanIp then [source] else []
  {
    var line := Line(Bypass(source));
    BypassLineIsTrimmed(source);
    BypassLineLooksUpMain(source);
    LineIs(source);
    BypassWords(line, source);
    StaleOfFields(line, lanIp, Words(line));
  }

  lemma BypassIsOursExactlyWhen(source: string, lanIp: string)
    requires IsWord(source)
    ensures ShowsOurs(Line(Bypass(source)), lanIp) <==> source == lanIp
  {
    BypassLineIsTrimmed(source);
    BypassLineLooksUpMain(source);
    BypassShowsItself(source);
    if Contains(Line(Bypass(source)), Want(lanIp)) {
      var k :| 0 <= k <= |Line(Bypass(source))| && At(Line(Bypass(source)), k, Want(lanIp));
      OnlyItsOwnIsFound(source, lanIp, k);
    }
  }

  lemma ForeignIsSkipped(line: string, lanIp: string)
    requires IsForeign(line)
    ensures StaleIn(lanIp)(line) == [] && !ShowsOurs(line, lanIp)
  {
    if Contains(TrimSpace(line), LOOKUP) { TrimIsPart(line, LOOKUP); }
    if Contains(line, Want(lanIp)) { WantLooksUpMain(line, lanIp); }
  }

  /** What one printed line is read as. */
  lemma LineIsReadBack(rule: Rule, lanIp: string)
    requires IsRule(rule)
    ensures StaleIn(lanIp)(Line(rule)) == if rule.Bypass? && rule.source != lanIp then [rule.source] else []
    ensures ShowsOurs(Line(rule), lanIp) <==> rule == Bypass(lanIp)
  {
    match rule
    case Bypass(source) =>
      BypassIsStaleExactlyWhen(source, lanIp);
      BypassIsOursExactlyWhen(source, lanIp);
    case Other(line) =>
      ForeignIsSkipped(line, lanIp);
  }

  /** The sources of rules of ours for other addresses, one per rule. */
  function Stale(rules: seq<Rule>, lanIp: string): seq<string> {
    if rules == [] then []
    else (if rules[0].Bypass? && rules[0].source != lanIp then [rules[0].source] else []) + Stale(rules[1..], lanIp)
  }

  lemma LastLineIsBlank(lanIp: string)
    ensures StaleIn(lanIp)("") == [] && !ShowsOurs("", lanIp)
  {
    assert TrimSpace("") == "" && |PREFIX| == 4;
  }

  /** f reads each printed rule as it should. */
  ghost predicate ReadsRules(rules: seq<Rule>, lanIp: string, f: string -> seq<string>) {
    f("") == [] && forall r :: r in rules ==> f(Line(r)) == if r.Bypass? && r.source != lanIp then [r.source] else []
  }

  lemma {:induction false} GatheredAre(rules: seq<Rule>, lanIp: string, f: string -> seq<string>)
    requires ReadsRules(rules, lanIp, f)
    ensures Flat(Lines(rules), f) == Stale(rules, lanIp)
  {
    if rules == [] {
      assert [""][1..] == [];
    } else {
      assert rules[0] in rules;
      GatheredAre(rules[1..], lanIp, f);
      assert Lines(rules)[1..] == Lines(rules[1..]);
    }
  }

  lemma StaleIsReadBack(rules: seq<Rule>, lanIp: string)
    requires IsTable(rules)
    ensures Flat(Lines(rules), StaleIn(lanIp)) == Stale(rules, lanIp)
  {
    var f := StaleIn(lanIp);
    LastLineIsBlank(lanIp);
    forall r | r in rules ensures f(Line(r)) == if r.Bypass? && r.source != lanIp then [r.source] else [] {
      LineIsReadBack(r, lanIp);
    }
    GatheredAre(rules, lanIp, f);
  }

  ghost predicate AnyShowsOurs(lines: seq<string>, lanIp: string) {
    exists i :: 0 <= i < |lines| && ShowsOurs(lines[i], lanIp)
  }

  lemma AnyOfFirstAndRest(first: string, rest: seq<string>, lanIp: string)
    ensures AnyShowsOurs([first] + rest, lanIp) <==> ShowsOurs(first, lanIp) || AnyShowsOurs(rest, lanIp)
  {
    var all := [first] + rest;
    assert all[0] == first && forall i :: 0 <= i < |rest| ==> all[i + 1] == rest[i];
    if i :| 0 <= i < |rest| && ShowsOurs(rest[i], lanIp) { assert ShowsOurs(all[i + 1], lanIp); }
    if i :| 0 <= i < |all| && ShowsOurs(all[i], lanIp) { assert i > 0 ==> rest[i - 1] == all[i]; }
  }

  lemma {:induction false} PresenceIsReadBack(rules: seq<Rule>, lanIp: string)
    requires IsTable(rules)
    ensures AnyShowsOurs(Lines(rules), lanIp) <==> Bypass(lanIp) in rules
  {
    if rules == [] {
      LastLineIsBlank(lanIp);
    } else {
      LineIsReadBack(rules[0], lanIp);
      PresenceIsReadBack(rules[1..], lanIp);
      AnyOfFirstAndRest(Line(rules[0]), Lines(rules[1..]), lanIp);
    }
  }

  // ---- Text, by what it means ----

  lemma {:induction false} SkippedAreSpaces(s: string, i: nat)
    requires i <= |s|
    ensures var j := SkipSpaces(s, i);
            (forall k :: i <= k < j ==> IsGoSpace(s[k])) && (j < |s| ==> !IsGoSpace(s[j]))
    decreases |s| - i
  {
    if i < |s| && IsGoSpace(s[i]) { SkippedAreSpaces(s, i + 1); }
  }

  lemma {:induction false} DroppedAreSpaces(s: string, i: nat, j: nat)
    requires i <= j <= |s|
    ensures var end := DropSpaces(s, i, j);
            (forall k :: end <= k < j ==> IsGoSpace(s[k])) && (end > i ==> !IsGoSpace(s[end - 1]))
  {
    if i < j && IsGoSpace(s[j - 1]) { DroppedAreSpaces(s, i, j - 1); }
  }

  /** Trimming takes spaces off both ends, and all of them. */
  lemma TrimmedExactly(s: string) returns (i: nat, j: nat)
    ensures i <= j <= |s| && TrimSpace(s) == s[i..j]
    ensures (forall k :: 0 <= k < i ==> IsGoSpace(s[k])) && (forall k :: j <= k < |s| ==> IsGoSpace(s[k]))
    ensures i < j ==> !IsGoSpace(s[i]) && !IsGoSpace(s[j - 1])
  {
    i := SkipSpaces(s, 0);
    j := DropSpaces(s, i, |s|);
    SkippedAreSpaces(s, 0);
    DroppedAreSpaces(s, i, |s|);
  }

  lemma ContainsExactlyWhen(s: string, part: string)
    ensures Contains(s, part) <==> exists head, tail :: s == head + part + tail
  {
    if k :| 0 <= k <= |s| && At(s, k, part) {
      assert s == s[..k] + part + s[k + |part|..];
    }
    if head, tail :| s == head + part + tail {
      assert s[|head|..|head| + |part|] == part;
      assert At(s, |head|, part);
    }
  }

  // ---- Changing the rules ----

  /** `ip rule del`: the first rule of that source goes. */
  function Delete(rules: seq<Rule>, source: string): seq<Rule> {
    if rules == [] then []
    else if rules[0] == Bypass(source) then rules[1..]
    else [rules[0]] + Delete(rules[1..], source)
  }

  datatype Error = ShowFailed | DeleteFailed(source: string) | AddFailed

  /** The deletes of a run, in order; fails(k) says that the k-th fails and changes nothing. */
  function DeleteAll(rules: seq<Rule>, stale: seq<string>, fails: nat -> bool): seq<Rule> {
    if stale == [] then rules
    else
      var before := DeleteAll(rules, stale[..|stale| - 1], fails);
      if fails(|stale| - 1) then before else Delete(before, stale[|stale| - 1])
  }

  function FirstFailure(stale: seq<string>, fails: nat -> bool): Option<Error> {
    if stale == [] then None
    else
      var before := FirstFailure(stale[..|stale| - 1], fails);
      if before.None? && fails(|stale| - 1) then Some(DeleteFailed(stale[|stale| - 1])) else before
  }

  /** The table and the error after a run on a readable table. */
  function Applied(rules: seq<Rule>, lanIp: string, fails: nat -> bool, addFails: bool): (seq<Rule>, Option<Error>) {
    var stale := Stale(rules, lanIp);
    var after := DeleteAll(rules, stale, fails);
    if Bypass(lanIp) in rules then (after, FirstFailure(stale, fails))
    else if addFails then (after, Some(AddFailed))
    else (after + [Bypass(lanIp)], FirstFailure(stale, fails))
  }

  /** What the two parsers make of the kernel's output. */
  method ReadRules(stdout: string, ghost rules: seq<Rule>, lanIp: string) returns (stale: seq<string>, present: bool)
    requires stdout == Show(rules) && IsTable(rules)
    ensures stale == Stale(rules, lanIp) && (present <==> Bypass(lanIp) in rules)
  {
    ShownLines(rules);
    StaleIsReadBack(rules, lanIp);
    PresenceIsReadBack(rules, lanIp);
    stale := StaleSources(stdout, lanIp);
    present := RulePresent(stdout, lanIp);
  }

  class Manager {
    var rules: seq<Rule>

    constructor (rules: seq<Rule>)
      ensures this.rules == rules
    {
      this.rules := rules;
    }

    /** applyLanBypassRule; an address is one word. */
    method ApplyLanBypassRule(lanIp: string, showFails: bool, fails: nat -> bool, addFails: bool)
      returns (error: Option<Error>)
      requires IsTable(rules) && IsWord(lanIp)
      modifies this
      ensures showFails ==> rules == old(rules) && error == Some(ShowFailed)
      ensures !showFails ==> (rules, error) == Applied(old(rules), lanIp, fails, addFails)
    {
      if showFails { return Some(ShowFailed); }
      var stale, present := ReadRules(Show(rules), rules, lanIp);
      var deleteError := RemoveStale(stale, fails);
      if present { return deleteError; }
      if addFails { return Some(AddFailed); }
      rules := rules + [Bypass(lanIp)];
      return deleteError;
    }

    /** The loop over the stale sources: the first error is kept, and none stops it. */
    method RemoveStale(stale: seq<string>, fails: nat -> bool) returns (error: Option<Error>)
      modifies this
      ensures rules == DeleteAll(old(rules), stale, fails) && error == FirstFailure(stale, fails)
    {
      error := None;
      for k := 0 to |stale|
        invariant rules == DeleteAll(old(rules), stale[..k], fails) && error == FirstFailure(stale[..k], fails)
      {
        assert stale[..k + 1][..k] == stale[..k];
        if fails(k) {
          if error.None? { error := Some(DeleteFailed(stale[k])); }
        } else {
          rules := Delete(rules, stale[k]);
        }
      }
      assert stale[..|stale|] == stale;
    }

    /** ApplyLanBypass: without an address there is nothing to do. */
    method ApplyLanBypass(lanIp: string, showFails: bool, fails: nat -> bool, addFails: bool)
      returns (error: Option<Error>)
      requires IsTable(rules) && (lanIp != "" ==> IsWord(lanIp))
      modifies this
      ensures lanIp == "" ==> rules == old(rules) && error == None
      ensures lanIp != "" && showFails ==> rules == old(rules) && error == Some(ShowFailed)
      ensures lanIp != "" && !showFails ==> (rules, error) == Applied(old(rules), lanIp, fails, addFails)
    {
      if lanIp == "" { return None; }
      error := ApplyLanBypassRule(lanIp, showFails, fails, addFails);
    }
  }

  // ---- Convergence ----

  predicate IsStale(rule: Rule, lanIp: string) {
    rule.Bypass? && rule.source != lanIp
  }

  /** The table without rules of ours for other addresses. */
  function Kept(rules: seq<Rule>, lanIp: string): seq<Rule> {
    if rules == [] then [] else (if IsStale(rules[0], lanIp) then [] else [rules[0]]) + Kept(rules[1..], lanIp)
  }

  lemma {:induction false} DeleteBehind(kept: seq<Rule>, source: string, rest: seq<Rule>)
    requires Bypass(source) !in kept
    ensures Delete(kept + [Bypass(source)] + rest, source) == kept + rest
  {
    var all := kept + [Bypass(source)] + rest;
    if kept == [] {
      assert all == [Bypass(source)] + rest;
    } else {
      assert all[0] == kept[0] && all[1..] == kept[1..] + [Bypass(source)] + rest;
      DeleteBehind(kept[1..], source, rest);
    }
  }

  lemma {:induction false} KeptIsClean(rules: seq<Rule>, lanIp: string)
    ensures forall r :: r in Kept(rules, lanIp) <==> r in rules && !IsStale(r, lanIp)
  {
    if rules != [] { KeptIsClean(rules[1..], lanIp); }
  }

  lemma {:induction false} KeptOneMore(rules: seq<Rule>, n: nat, lanIp: string)
    requires n < |rules|
    ensures Kept(rules[..n + 1], lanIp) == Kept(rules[..n], lanIp) + if IsStale(rules[n], lanIp) then [] else [rules[n]]
    decreases n
  {
    var all, part := rules[..n + 1], rules[..n];
    if n == 0 {
      assert all[1..] == [];
    } else {
      var rest := rules[1..];
      assert all[1..] == rest[..n] && part[1..] == rest[..n - 1] && rest[n - 1] == rules[n];
      KeptOneMore(rest, n - 1, lanIp);
    }
  }

  lemma {:induction false} StaleOneMore(rules: seq<Rule>, n: nat, lanIp: string)
    requires n < |rules|
    ensures Stale(rules[..n + 1], lanIp) == Stale(rules[..n], lanIp)
            + if IsStale(rules[n], lanIp) then [rules[n].source] else []
    decreases n
  {
    var all, part := rules[..n + 1], rules[..n];
    if n == 0 {
      assert all[1..] == [];
    } else {
      var rest := rules[1..];
      assert all[1..] == rest[..n] && part[1..] == rest[..n - 1] && rest[n - 1] == rules[n];
      StaleOneMore(rest, n - 1, lanIp);
    }
  }

  const NO_FAILURE: nat -> bool := k => false

  lemma DeleteOneMore(rules: seq<Rule>, stale: seq<string>, source: string)
    ensures DeleteAll(rules, stale + [source], NO_FAILURE) == Delete(DeleteAll(rules, stale, NO_FAILURE), source)
  {
    assert (stale + [source])[..|stale|] == stale;
  }

  /** Deleting the stale sources of the first n rules cleans just those. */
  lemma {:induction false} DeletingCleans(rules: seq<Rule>, n: nat, lanIp: string)
    requires n <= |rules|
    ensures DeleteAll(rules, Stale(rules[..n], lanIp), NO_FAILURE) == Kept(rules[..n], lanIp) + rules[n..]
  {
    if n == 0 {
      assert rules[0..] == rules;
    } else {
      var m := n - 1;
      var kept := Kept(rules[..m], lanIp);
      DeletingCleans(rules, m, lanIp);
      KeptOneMore(rules, m, lanIp);
      StaleOneMore(rules, m, lanIp);
      assert rules[..m + 1] == rules[..n];
      assert kept + rules[m..] == kept + [rules[m]] + rules[n..];
      if IsStale(rules[m], lanIp) {
        DeleteOneMore(rules, Stale(rules[..m], lanIp), rules[m].source);
        KeptIsClean(rules[..m], lanIp);
        DeleteBehind(kept, rules[m].source, rules[n..]);
        assert kept + [] == kept;
      } else {
        assert Stale(rules[..m], lanIp) + [] == Stale(rules[..m], lanIp);
      }
    }
  }

  lemma {:induction false} NothingFails(stale: seq<string>)
    ensures FirstFailure(stale, NO_FAILURE).None?
  {
    if stale != [] { NothingFails(stale[..|stale| - 1]); }
  }

  /**
   A run whose commands all succeed leaves the other rules in place, none of ours for another address, and
   one for this.
   */
  lemma Converges(rules: seq<Rule>, lanIp: string)
    ensures Applied(rules, lanIp, NO_FAILURE, false)
         == (Kept(rules, lanIp) + (if Bypass(lanIp) in rules then [] else [Bypass(lanIp)]), None)
  {
    DeletingCleans(rules, |rules|, lanIp);
    assert rules[..|rules|] == rules && rules[|rules|..] == [];
    assert Kept(rules, lanIp) + [] == Kept(rules, lanIp);
    NothingFails(Stale(rules, lanIp));
  }

  function Count(rules: seq<Rule>, rule: Rule): nat {
    multiset(rules)[rule]
  }

  lemma {:induction false} KeptCounts(rules: seq<Rule>, lanIp: string, rule: Rule)
    ensures Count(Kept(rules, lanIp), rule) == if IsStale(rule, lanIp) then 0 else Count(rules, rule)
  {
    if rules != [] {
      KeptCounts(rules[1..], lanIp, rule);
      assert rules == [rules[0]] + rules[1..];
    }
  }

  /**
   Counted: no rule for another address, every other rule as often as before, ours at least once, and once if
   at most once before.
   */
  lemma ConvergedCounts(rules: seq<Rule>, lanIp: string, rule: Rule)
    ensures var after := Applied(rules, lanIp, NO_FAILURE, false).0;
            Count(after, rule) == if rule == Bypass(lanIp)
                then (if Count(rules, rule) == 0 then 1 else Count(rules, rule))
                                  else if rule.Bypass? then 0
                                  else Count(rules, rule)
  {
    Converges(rules, lanIp);
    KeptCounts(rules, lanIp, rule);
    assert Bypass(lanIp) in rules <==> Count(rules, Bypass(lanIp)) > 0;
  }

  lemma {:induction false} KeptIsFixed(rules: seq<Rule>, lanIp: string)
    requires forall r :: r in rules ==> !IsStale(r, lanIp)
    ensures Kept(rules, lanIp) == rules
  {
    if rules != [] {
      KeptIsFixed(rules[1..], lanIp);
      assert rules == [rules[0]] + rules[1..];
    }
  }

  lemma OnceIsClean(rules: seq<Rule>, lanIp: string, once: seq<Rule>)
    requires once == Kept(rules, lanIp) + if Bypass(lanIp) in rules then [] else [Bypass(lanIp)]
    ensures Kept(once, lanIp) == once && Bypass(lanIp) in once
  {
    KeptIsClean(rules, lanIp);
    KeptIsFixed(once, lanIp);
  }

  /** A second run changes nothing. */
  lemma SecondRunChangesNothing(rules: seq<Rule>, lanIp: string)
    ensures var once := Applied(rules, lanIp, NO_FAILURE, false).0;
            Applied(once, lanIp, NO_FAILURE, false) == (once, None)
  {
    var once := Applied(rules, lanIp, NO_FAILURE, false).0;
    Converges(rules, lanIp);
    OnceIsClean(rules, lanIp, once);
    Converges(once, lanIp);
    assert once + [] == once;
  }

  // ---- Failures ----

  lemma {:induction false} DeleteKeepsOthers(rules: seq<Rule>, source: string, rule: Rule)
    requires rule != Bypass(source)
    ensures Count(Delete(rules, source), rule) == Count(rules, rule)
  {
    if rules != [] {
      assert rules == [rules[0]] + rules[1..];
      if rules[0] != Bypass(source) { DeleteKeepsOthers(rules[1..], source, rule); }
    }
  }

  lemma {:induction false} DeletesKeep(rules: seq<Rule>, stale: seq<string>, fails: nat -> bool, rule: Rule)
    requires forall k :: 0 <= k < |stale| ==> rule != Bypass(stale[k])
    ensures Count(DeleteAll(rules, stale, fails), rule) == Count(rules, rule)
  {
    if stale != [] {
      var before := stale[..|stale| - 1];
      DeletesKeep(rules, before, fails, rule);
      DeleteKeepsOthers(DeleteAll(rules, before, fails), stale[|stale| - 1], rule);
    }
  }

  lemma {:induction false} StaleAreOthers(rules: seq<Rule>, lanIp: string)
    ensures lanIp !in Stale(rules, lanIp)
  {
    if rules != [] { StaleAreOthers(rules[1..], lanIp); }
  }

  lemma {:induction false} FailureExactlyWhen(stale: seq<string>, fails: nat -> bool)
    ensures FirstFailure(stale, fails).Some? <==> exists k :: 0 <= k < |stale| && fails(k)
    ensures FirstFailure(stale, fails) != Some(AddFailed) && FirstFailure(stale, fails) != Some(ShowFailed)
  {
    if stale != [] {
      FailureExactlyWhen(stale[..|stale| - 1], fails);
      if fails(|stale| - 1) { assert 0 <= |stale| - 1 < |stale|; }
    }
  }

  /**
   Whatever fails, the rules of others stay and our rule is there unless its own add failed; the run
   reports an error exactly when a delete it tried failed or the add did.
   */
  lemma FailuresDoNoHarm(rules: seq<Rule>, lanIp: string, fails: nat -> bool, addFails: bool, rule: Rule)
    ensures var (after, error) := Applied(rules, lanIp, fails, addFails);
            && (rule.Other? ==> Count(after, rule) == Count(rules, rule))
            && (Bypass(lanIp) in after <==> Bypass(lanIp) in rules || !addFails)
            && (error.Some? <==>
                (exists k :: 0 <= k < |Stale(rules, lanIp)| && fails(k)) || (addFails && Bypass(lanIp) !in rules))
  {
    var stale := Stale(rules, lanIp);
    var after := DeleteAll(rules, stale, fails);
    StaleAreOthers(rules, lanIp);
    DeletesKeep(rules, stale, fails, Bypass(lanIp));
    if rule.Other? { DeletesKeep(rules, stale, fails, rule); }
    FailureExactlyWhen(stale, fails);
    assert Bypass(lanIp) in after <==> Count(after, Bypass(lanIp)) > 0;
    assert Bypass(lanIp) in rules <==> Count(rules, Bypass(lanIp)) > 0;
  }

  /** How many of these deletes, for that source, fail. */
  function FailedFor(stale: seq<string>, fails: nat -> bool, source: string): nat {
    if stale == [] then 0
    else
      var n := |stale| - 1;
      FailedFor(stale[..n], fails, source) + if stale[n] == source && fails(n) then 1 else 0
  }

  lemma {:induction false} DeleteTakesOne(rules: seq<Rule>, source: string)
    requires Count(rules, Bypass(source)) > 0
    ensures Count(Delete(rules, source), Bypass(source)) == Count(rules, Bypass(source)) - 1
  {
    assert rules == [rules[0]] + rules[1..];
    if rules[0] != Bypass(source) { DeleteTakesOne(rules[1..], source); }
  }

  lemma {:induction false} DeletesLeave(rules: seq<Rule>, stale: seq<string>, fails: nat -> bool, source: string)
    requires multiset(stale)[source] <= Count(rules, Bypass(source))
    ensures Count(DeleteAll(rules, stale, fails), Bypass(source))
         == Count(rules, Bypass(source)) - multiset(stale)[source] + FailedFor(stale, fails, source)
  {
    if stale != [] {
      var n := |stale| - 1;
      assert stale == stale[..n] + [stale[n]];
      DeletesLeave(rules, stale[..n], fails, source);
      var before := DeleteAll(rules, stale[..n], fails);
      if stale[n] != source {
        DeleteKeepsOthers(before, stale[n], Bypass(source));
      } else if !fails(n) {
        DeleteTakesOne(before, source);
      }
    }
  }

  lemma {:induction false} StaleCounts(rules: seq<Rule>, lanIp: string, source: string)
    requires source != lanIp
    ensures multiset(Stale(rules, lanIp))[source] == Count(rules, Bypass(source))
  {
    if rules != [] {
      StaleCounts(rules[1..], lanIp, source);
      CountFirst(rules, Bypass(source));
    }
  }

  lemma CountFirst(rules: seq<Rule>, rule: Rule)
    requires rules != []
    ensures Count(rules, rule) == Count(rules[1..], rule) + if rules[0] == rule then 1 else 0
  {
    assert rules == [rules[0]] + rules[1..];
  }

  /** Of the rules for another address exactly those stay whose own delete failed. */
  lemma FailedDeletesLeaveTheirRule(rules: seq<Rule>, lanIp: string, fails: nat -> bool, addFails: bool, source: string)
    requires source != lanIp
    ensures Count(Applied(rules, lanIp, fails, addFails).0, Bypass(source))
         == FailedFor(Stale(rules, lanIp), fails, source)
  {
    StaleCounts(rules, lanIp, source);
    DeletesLeave(rules, Stale(rules, lanIp), fails, source);
  }

  /** The error is the add's if that failed, else that of the first delete that did. */
  lemma ErrorExactlyWhen(rules: seq<Rule>, lanIp: string, fails: nat -> bool, addFails: bool)
    ensures var stale, error := Stale(rules, lanIp), Applied(rules, lanIp, fails, addFails).1;
            && (error == Some(AddFailed) <==> addFails && Bypass(lanIp) !in rules)
            && error != Some(ShowFailed)
            && forall k :: 0 <= k < |stale| && fails(k) && (forall j :: 0 <= j < k ==> !fails(j)) ==>
                 error == Some(DeleteFailed(stale[k])) || (addFails && Bypass(lanIp) !in rules)
  {
    var stale := Stale(rules, lanIp);
    FailureExactlyWhen(stale, fails);
    forall k | 0 <= k < |stale| && fails(k) && (forall j :: 0 <= j < k ==> !fails(j))
      ensures FirstFailure(stale, fails) == Some(DeleteFailed(stale[k]))
    {
      FirstFailureIs(stale, fails, k);
    }
  }

  lemma {:induction false} FirstFailureIs(stale: seq<string>, fails: nat -> bool, k: nat)
    requires k < |stale| && fails(k) && forall j :: 0 <= j < k ==> !fails(j)
    ensures FirstFailure(stale, fails) == Some(DeleteFailed(stale[k]))
  {
    var n := |stale| - 1;
    if k < n {
      FirstFailureIs(stale[..n], fails, k);
    } else {
      FailureExactlyWhen(stale[..n], fails);
    }
  }
}
