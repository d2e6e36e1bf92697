/**
 Reading the check_for_gh_release call of a community script (src/lib/app-update-check.ts).

 The code walks the script by index.  The specification reads a suffix of it, since nothing the
 code does looks back.
 */
module ReleaseCheck {
  import opened Wrappers
  import opened Text

  // ---- What one turn of the tokenizer's loop does ----

  predicate IsBlank(c: char) {
    c == ' ' || c == '\t'
  }

  predicate IsWordChar(c: char) {
    'A' <= c <= 'Z' || 'a' <= c <= 'z' || '0' <= c <= '9' || c == '_'
  }

  predicate StartsWithConnective(t: string) {
    |t| >= 2 && t[0] == t[1] && (t[0] == '&' || t[0] == '|')
  }

  predicate StartsWithThen(t: string) {
    |t| >= 4 && t[0] == 't' && t[1] == 'h' && t[2] == 'e' && t[3] == 'n' && (|t| == 4 || !IsWordChar(t[4]))
  }

  /** The call ends here: nothing is left, or a newline, `;`, `&&`, `||`, `then` or a comment follows. */
  predicate EndsCall(t: string) {
    t == "" || t[0] == '\n' || t[0] == ';' || StartsWithConnective(t) || StartsWithThen(t) || t[0] == '#'
  }

  function SkipBlanks(t: string): (rest: string)
    ensures |rest| <= |t| && (rest == "" || !IsBlank(rest[0]))
  {
    if t != "" && IsBlank(t[0]) then SkipBlanks(t[1..]) else t
  }

  /** Index of the closing quote in t, or |t|; only a double quote can be escaped. */
  function QuoteEnd(t: string, quote: char): (end: nat)
    ensures end <= |t|
  {
    if t == "" then 0
    else if quote == '"' && t[0] == '\\' then (if |t| == 1 then 1 else 2 + QuoteEnd(t[2..], quote))
    else if t[0] == quote then 0
    else 1 + QuoteEnd(t[1..], quote)
  }

  function WordEnd(t: string): (end: nat)
    ensures end <= |t|
  {
    if t == "" || IsSpace(t[0]) || t[0] == ';' || StartsWithConnective(t) then 0 else 1 + WordEnd(t[1..])
  }

  /**
   One turn of the loop on text t, which does not end the call and starts with no blank: the argument, and
   what is left.
   */
  function Turn(t: string): (r: (string, string))
    requires t != ""
    ensures |r.1| <= |t|
  {
    if t[0] == '"' || t[0] == '\'' then
      var end := QuoteEnd(t[1..], t[0]);
      (t[1..][..end], if end < |t| - 1 then t[1..][end + 1..] else "")
    else
      (t[..WordEnd(t)], t[WordEnd(t)..])
  }

  /** The arguments read, and whether the loop then ends or stays where it is forever. */
  datatype Scanned = Scanned(args: seq<string>, ends: bool)

  function Scan(t: string): Scanned
    decreases |t|
  {
    var t := SkipBlanks(t);
    if EndsCall(t) then Scanned([], true)
    else
      var (arg, rest) := Turn(t);
      if |rest| == |t| then Scanned([], false)
      else
        var more := Scan(rest);
        Scanned([arg] + more.args, more.ends)
  }

  // ---- The code, by index ----

  method FindClosingQuote(script: string, start: nat, quote: char) returns (end: nat)
    requires start <= |script|
    ensures end == start + QuoteEnd(script[start..], quote) && end <= |script|
  {
    var i := start;
    while i < |script|
      invariant start <= i
      invariant i <= |script| ==> start + QuoteEnd(script[start..], quote) == i + QuoteEnd(script[i..], quote)
      invariant i > |script| ==> start + QuoteEnd(script[start..], quote) == |script|
    {
      ghost var t := script[i..];
      if quote == '"' && script[i] == '\\' {
        assert |t| > 1 ==> t[2..] == script[i + 2..];
        i := i + 2;
        continue;
      }
      if script[i] == quote { return i; }
      assert t[1..] == script[i + 1..];
      i := i + 1;
    }
    return |script|;
  }

  /** The inner loop that steps over blanks. */
  method StepOverBlanks(script: string, start: nat) returns (i: nat)
    requires start <= |script|
    ensures start <= i <= |script| && script[i..] == SkipBlanks(script[start..])
  {
    i := start;
    while i < |script| && (script[i] == ' ' || script[i] == '\t')
      invariant start <= i <= |script|
      invariant SkipBlanks(script[start..]) == SkipBlanks(script[i..])
    {
      assert script[i..][1..] == script[i + 1..];
      i := i + 1;
    }
  }

  /** The inner loop that finds the end of a bare word. */
  method BareWordEnd(script: string, start: nat) returns (j: nat)
    requires start <= |script|
    ensures j == start + WordEnd(script[start..]) && j <= |script|
  {
    j := start;
    while j < |script| && !IsSpace(script[j]) && script[j] != ';' && !StartsWithConnective(script[j..])
      invariant start <= j <= |script|
      invariant j - start + WordEnd(script[j..]) == WordEnd(script[start..])
    {
      assert script[j..][1..] == script[j + 1..];
      j := j + 1;
    }
  }

  /** What is left from position i on; the code's position may be one past the end. */
  function Rest(script: string, i: nat): string {
    if i <= |script| then script[i..] else ""
  }

  function ScanAt(script: string, i: nat): Scanned {
    Scan(Rest(script, i))
  }

  function Before(args: seq<string>, s: Scanned): Scanned {
    Scanned(args + s.args, s.ends)
  }

  /** What one turn of the loop does: stop, push an argument and move on, or push an empty one and stay. */
  datatype TurnResult = Break | Push(arg: string, next: nat) | NoProgress

  /** The specification, read from i, is this turn followed by the specification from where it ends. */
  ghost predicate TurnIs(script: string, i: nat, r: TurnResult)
    requires i <= |script|
  {
    && (r.Push? ==> r.next > i)
    && Scan(script[i..]) == match r
        case Break => Scanned([], true)
        case Push(arg, next) => Before([arg], ScanAt(script, next))
        case NoProgress => Scanned([], false)
  }

  lemma ScanTurn(t: string)
    requires SkipBlanks(t) == t && !EndsCall(t)
    ensures Scan(t) == if |Turn(t).1| == |t| then Scanned([], false) else Before([Turn(t).0], Scan(Turn(t).1))
  {
  }

  lemma QuoteStartsAWord(t: string)
    requires t != "" && (t[0] == '"' || t[0] == '\'')
    ensures SkipBlanks(t) == t && !EndsCall(t)
  {
  }

  lemma QuotedTurnText(t: string)
    requires t != "" && (t[0] == '"' || t[0] == '\'')
    ensures Turn(t).0 == t[1..][..QuoteEnd(t[1..], t[0])]
    ensures Turn(t).1 == if QuoteEnd(t[1..], t[0]) < |t| - 1 then t[1..][QuoteEnd(t[1..], t[0]) + 1..] else ""
  {
  }

  lemma QuotedTurnIndices(script: string, i: nat, end: nat)
    requires i < |script| && (script[i] == '"' || script[i] == '\'')
    requires end == i + 1 + QuoteEnd(script[i + 1..], script[i])
    ensures end <= |script| && script[i + 1..end] == Turn(script[i..]).0
    ensures Rest(script, end + 1) == Turn(script[i..]).1
  {
    var t := script[i..];
    assert t[1..] == script[i + 1..];
    QuotedTurnText(t);
    assert script[i + 1..end] == t[1..][..end - i - 1];
    assert end < |script| ==> script[end + 1..] == t[1..][end - i..];
  }

  lemma QuotedScan(t: string)
    requires t != "" && (t[0] == '"' || t[0] == '\'') && !EndsCall(t) && SkipBlanks(t) == t
    ensures Scan(t) == Before([Turn(t).0], Scan(Turn(t).1))
  {
    ScanTurn(t);
  }

  lemma PushedTurn(script: string, i: nat, next: nat, arg: string, rest: string)
    requires i < |script| && next > i && rest == Rest(script, next)
    requires Scan(script[i..]) == Before([arg], Scan(rest))
    ensures TurnIs(script, i, Push(arg, next))
  {
  }

  lemma QuotedScanAt(script: string, i: nat, end: nat)
    requires i < |script| && (script[i] == '"' || script[i] == '\'')
    requires end == i + 1 + QuoteEnd(script[i + 1..], script[i]) && end <= |script|
    ensures Scan(script[i..]) == Before([script[i + 1..end]], Scan(Rest(script, end + 1)))
  {
    QuoteStartsAWord(script[i..]);
    QuotedScan(script[i..]);
    QuotedTurnIndices(script, i, end);
  }

  lemma QuotedTurn(script: string, i: nat, end: nat)
    requires i < |script| && (script[i] == '"' || script[i] == '\'')
    requires end == i + 1 + QuoteEnd(script[i + 1..], script[i]) && end <= |script|
    ensures TurnIs(script, i, Push(script[i + 1..end], end + 1))
  {
    QuotedScanAt(script, i, end);
    PushedTurn(script, i, end + 1, script[i + 1..end], Rest(script, end + 1));
  }

  lemma BareTurn(script: string, i: nat, j: nat)
    requires i < |script| && script[i] != '"' && script[i] != '\''
    requires SkipBlanks(script[i..]) == script[i..] && !EndsCall(script[i..])
    requires j == i + WordEnd(script[i..])
    ensures TurnIs(script, i, if j == i then NoProgress else Push(script[i..j], j))
  {
    var t := script[i..];
    ScanTurn(t);
    assert Turn(t) == (t[..j - i], t[j - i..]);
    assert script[i..j] == t[..j - i] && script[j..] == t[j - i..];
  }

  /** What the code tests before it reads a word. */
  method StopsAt(script: string, i: nat) returns (stops: bool)
    requires i <= |script|
    ensures stops == EndsCall(script[i..])
    ensures stops && SkipBlanks(script[i..]) == script[i..] ==> TurnIs(script, i, Break)
  {
    if i >= |script| || script[i] == '\n' || script[i] == ';' { return true; }
    if StartsWithConnective(script[i..]) { return true; }
    if StartsWithThen(script[i..]) { return true; }
    return script[i] == '#';
  }

  lemma BeforeTwice(args: seq<string>, more: seq<string>, s: Scanned)
    ensures Before(args, Before(more, s)) == Before(args + more, s)
  {
    assert args + (more + s.args) == args + more + s.args;
  }

  /** The body of the tokenizer's loop, for one turn. */
  method LoopBody(script: string, start: nat) returns (r: TurnResult)
    requires start < |script|
    ensures TurnIs(script, start, r)
  {
    SkipBlanksTwice(script[start..]);
    var i := StepOverBlanks(script, start);
    r := WordAt(script, i);
  }

  /** The same, once the blanks are behind. */
  method WordAt(script: string, i: nat) returns (r: TurnResult)
    requires i <= |script| && SkipBlanks(script[i..]) == script[i..]
    ensures TurnIs(script, i, r)
  {
    var stops := StopsAt(script, i);
    if stops {
      return Break;
    } else if script[i] == '"' || script[i] == '\'' {
      r := QuotedWord(script, i);
    } else {
      var j := BareWordEnd(script, i);
      BareTurn(script, i, j);
      r := if j == i then NoProgress else Push(script[i..j], j);
    }
  }

  method QuotedWord(script: string, i: nat) returns (r: TurnResult)
    requires i < |script| && (script[i] == '"' || script[i] == '\'')
    ensures TurnIs(script, i, r)
  {
    var end := FindClosingQuote(script, i + 1, script[i]);
    QuotedTurn(script, i, end);
    r := Push(script[i + 1..end], end + 1);
  }

  /** The tokenizer.  A turn without progress repeats forever: `ends` is false then. */
  method TokenizeCallArgs(script: string, start: nat) returns (args: seq<string>, ends: bool)
    requires start <= |script|
    ensures Scanned(args, ends) == Scan(script[start..])
  {
    args := [];
    var i := start;
    while i < |script|
      invariant start <= i
      invariant Scan(script[start..]) == Before(args, ScanAt(script, i))
      decreases |script| - i
    {
      var turn := LoopBody(script, i);
      match turn {
        case Break =>
          return args, true;
        case Push(arg, next) =>
          BeforeTwice(args, [arg], ScanAt(script, next));
          args := args + [arg];
          i := next;
        case NoProgress =>
          return args, false;
      }
    }
    return args, true;
  }

  lemma {:induction false} SkipBlanksTwice(t: string)
    ensures SkipBlanks(SkipBlanks(t)) == SkipBlanks(t) && Scan(SkipBlanks(t)) == Scan(t)
  {
  }

  // ---- When the loop ends ----

  /** Whitespace the loop neither skips nor stops at. */
  predicate IsStrayBlank(c: char) {
    IsSpace(c) && !IsBlank(c) && c != '\n'
  }

  /** The loop, n turns at most: whether it has ended by then. */
  predicate EndsWithin(t: string, n: nat)
    decreases n
  {
    n > 0 && (EndsCall(SkipBlanks(t)) || EndsWithin(Turn(SkipBlanks(t)).1, n - 1))
  }

  /** A turn makes no progress exactly at stray whitespace, and then the next turn finds the same text. */
  lemma NoProgressExactlyAtStrayBlanks(t: string)
    requires t != "" && SkipBlanks(t) == t && !EndsCall(t)
    ensures |Turn(t).1| == |t| <==> IsStrayBlank(t[0])
    ensures IsStrayBlank(t[0]) ==> Turn(t) == ("", t)
  {
    if !IsStrayBlank(t[0]) && t[0] != '"' && t[0] != '\'' {
      assert WordEnd(t) == 1 + WordEnd(t[1..]);
    }
  }

  /** Some number of turns is enough. */
  ghost predicate LoopEnds(t: string) {
    exists n: nat :: EndsWithin(t, n)
  }

  lemma OneTurnIsEnough(t: string)
    requires EndsCall(SkipBlanks(t))
    ensures LoopEnds(t)
  {
    assert EndsWithin(t, 1);
  }

  lemma OneTurnEarlier(t: string)
    requires !EndsCall(SkipBlanks(t)) && LoopEnds(Turn(SkipBlanks(t)).1)
    ensures LoopEnds(t)
  {
    var n: nat :| EndsWithin(Turn(SkipBlanks(t)).1, n);
    assert EndsWithin(t, n + 1);
  }

  lemma OneTurnLater(t: string)
    requires !EndsCall(SkipBlanks(t)) && LoopEnds(t)
    ensures LoopEnds(Turn(SkipBlanks(t)).1)
  {
    var n: nat :| EndsWithin(t, n);
    assert EndsWithin(Turn(SkipBlanks(t)).1, n - 1);
  }

  /** The specification's `ends` is about the loop itself. */
  lemma {:induction false} LoopEndsExactlyWhen(t: string)
    ensures Scan(t).ends <==> LoopEnds(t)
    decreases |t|
  {
    var u := SkipBlanks(t);
    if EndsCall(u) {
      OneTurnIsEnough(t);
    } else {
      var rest := Turn(u).1;
      SkipBlanksTwice(t);
      if |rest| == |u| {
        NoProgressExactlyAtStrayBlanks(u);
        forall n: nat ensures !EndsWithin(t, n) {
          StuckForever(t, n);
        }
      } else {
        LoopEndsExactlyWhen(rest);
        assert Scan(t).ends == Scan(rest).ends;
        if LoopEnds(rest) { OneTurnEarlier(t); }
        if LoopEnds(t) { OneTurnLater(t); }
      }
    }
  }

  lemma {:induction false} StuckForever(t: string, n: nat)
    requires !EndsCall(SkipBlanks(t)) && Turn(SkipBlanks(t)).1 == SkipBlanks(t)
    ensures !EndsWithin(t, n)
    decreases n
  {
    if n > 0 {
      SkipBlanksTwice(t);
      StuckForever(SkipBlanks(t), n - 1);
    }
  }

  // ---- The exact condition, on the text of the script ----

  datatype Place = BetweenWords | InBareWord | InQuotes(quote: char)

  /**
   Reading left to right, one character at a time: before the call ends, stray whitespace stands where a word
   could start.
   */
  predicate StrayBetweenWords(t: string, place: Place)
    decreases |t|, if place.InBareWord? then 1 else 0
  {
    if t == "" then false
    else
      match place
      case BetweenWords =>
        if IsBlank(t[0]) then StrayBetweenWords(t[1..], BetweenWords)
        else if EndsCall(t) then false
        else if t[0] == '"' || t[0] == '\'' then StrayBetweenWords(t[1..], InQuotes(t[0]))
        else IsStrayBlank(t[0]) || StrayBetweenWords(t[1..], InBareWord)
      case InBareWord =>
        if IsSpace(t[0]) || t[0] == ';' || StartsWithConnective(t) then StrayBetweenWords(t, BetweenWords)
        else StrayBetweenWords(t[1..], InBareWord)
      case InQuotes(quote) =>
        if quote == '"' && t[0] == '\\' then |t| > 1 && StrayBetweenWords(t[2..], place)
        else StrayBetweenWords(t[1..], if t[0] == quote then BetweenWords else place)
  }

  lemma {:induction false} StrayAfterBlanks(t: string)
    ensures StrayBetweenWords(t, BetweenWords) == StrayBetweenWords(SkipBlanks(t), BetweenWords)
  {
    if t != "" && IsBlank(t[0]) { StrayAfterBlanks(t[1..]); }
  }

  lemma {:induction false} StrayAfterBareWord(t: string)
    ensures StrayBetweenWords(t, InBareWord) == StrayBetweenWords(t[WordEnd(t)..], BetweenWords)
  {
    if WordEnd(t) == 0 {
      assert t[0..] == t;
    } else {
      StrayAfterBareWord(t[1..]);
      assert t[1..][WordEnd(t[1..])..] == t[WordEnd(t)..];
    }
  }

  lemma {:induction false} StrayAfterQuotes(t: string, quote: char)
    ensures StrayBetweenWords(t, InQuotes(quote))
         == (QuoteEnd(t, quote) < |t| && StrayBetweenWords(t[QuoteEnd(t, quote) + 1..], BetweenWords))
  {
    var end := QuoteEnd(t, quote);
    if t == "" {
    } else if quote == '"' && t[0] == '\\' {
      if |t| > 1 {
        StrayAfterQuotes(t[2..], quote);
        assert end < |t| ==> t[2..][end - 2 + 1..] == t[end + 1..];
      }
    } else if t[0] != quote {
      StrayAfterQuotes(t[1..], quote);
      assert end < |t| ==> t[1..][end - 1 + 1..] == t[end + 1..];
    }
  }

  /** One word read leaves the same question for what follows it. */
  lemma StrayAfterTurn(t: string)
    requires t != "" && SkipBlanks(t) == t && !EndsCall(t) && !IsStrayBlank(t[0])
    ensures StrayBetweenWords(t, BetweenWords) == StrayBetweenWords(Turn(t).1, BetweenWords)
  {
    if t[0] == '"' || t[0] == '\'' {
      QuotedTurnText(t);
      StrayAfterQuotes(t[1..], t[0]);
    } else {
      StrayAfterBareWord(t[1..]);
      assert t[1..][WordEnd(t[1..])..] == t[WordEnd(t)..];
    }
  }

  /** The loop ends, and the specification says so, exactly when no stray whitespace stands between the call's words. */
  lemma {:induction false} EndsExactlyWhen(t: string)
    ensures Scan(t).ends <==> !StrayBetweenWords(t, BetweenWords)
    ensures LoopEnds(t) <==> !StrayBetweenWords(t, BetweenWords)
    decreases |t|
  {
    LoopEndsExactlyWhen(t);
    var u := SkipBlanks(t);
    StrayAfterBlanks(t);
    if !EndsCall(u) {
      NoProgressExactlyAtStrayBlanks(u);
      if !IsStrayBlank(u[0]) {
        StrayAfterTurn(u);
        EndsExactlyWhen(Turn(u).1);
      }
    }
  }

  /** On a script whose only whitespace is space, tab and newline the loop always ends. */
  lemma {:induction false} EndsWithoutStrayBlanks(t: string)
    requires forall i :: 0 <= i < |t| ==> !IsStrayBlank(t[i])
    ensures Scan(t).ends
    decreases |t|
  {
    SkippedIsASuffix(t);
    var u := SkipBlanks(t);
    if !EndsCall(u) {
      NoProgressExactlyAtStrayBlanks(u);
      EndsWithoutStrayBlanks(Turn(u).1);
    }
  }

  lemma {:induction false} SkippedIsASuffix(t: string)
    ensures exists k :: 0 <= k <= |t| && SkipBlanks(t) == t[k..]
    decreases |t|
  {
    if t != "" && IsBlank(t[0]) {
      SkippedIsASuffix(t[1..]);
      var k :| 0 <= k <= |t| - 1 && SkipBlanks(t[1..]) == t[1..][k..];
      assert t[1..][k..] == t[k + 1..];
    } else {
      assert t[0..] == t;
    }
  }

  // ---- Round trip ----

  datatype Word = DoubleQuoted(text: string) | SingleQuoted(text: string) | Bare(text: string)

  predicate Legal(w: Word) {
    match w
    case DoubleQuoted(text) => '"' !in text && '\\' !in text
    case SingleQuoted(text) => '\'' !in text
    case Bare(text) =>
      && text != "" && text[0] != '"' && text[0] != '\'' && text[0] != '#' && !StartsWithThen(text)
      && forall i :: 0 <= i < |text| ==> !IsSpace(text[i]) && text[i] != ';' && !StartsWithConnective(text[i..])
  }

  function Rendered(w: Word): string {
    match w
    case DoubleQuoted(text) => "\"" + text + "\""
    case SingleQuoted(text) => "'" + text + "'"
    case Bare(text) => text
  }

  /** The words, each after one blank, and what follows the call. */
  function Render(words: seq<Word>, tail: string): string {
    if words == [] then tail else " " + (Rendered(words[0]) + Render(words[1..], tail))
  }

  function Texts(words: seq<Word>): seq<string> {
    seq(|words|, i requires 0 <= i < |words| => words[i].text)
  }

  lemma {:induction false} QuoteEndIs(text: string, quote: char, rest: string)
    requires quote !in text && (quote == '"' ==> '\\' !in text)
    ensures QuoteEnd(text + ([quote] + rest), quote) == |text|
  {
    var t := text + ([quote] + rest);
    if text == "" {
      assert t == [quote] + rest;
    } else {
      assert t[0] == text[0] && t[1..] == text[1..] + ([quote] + rest);
      QuoteEndIs(text[1..], quote, rest);
    }
  }

  lemma {:induction false} WordEndIs(text: string, rest: string)
    requires forall i :: 0 <= i < |text| ==> !IsSpace(text[i]) && text[i] != ';' && !StartsWithConnective(text[i..])
    requires rest == "" || IsSpace(rest[0]) || rest[0] == ';'
    ensures WordEnd(text + rest) == |text|
  {
    var t := text + rest;
    if text == "" {
      assert t == rest;
    } else {
      assert t[0] == text[0] && t[1..] == text[1..] + rest;
      assert text[0..] == text;
      assert |t| >= 2 ==> t[1] == if |text| >= 2 then text[1] else rest[0];
      forall i | 0 <= i < |text[1..]|
        ensures !IsSpace(text[1..][i]) && text[1..][i] != ';' && !StartsWithConnective(text[1..][i..])
      {
        assert text[1..][i..] == text[i + 1..];
      }
      WordEndIs(text[1..], rest);
    }
  }

  lemma QuotedIsOneTurn(text: string, quote: char, rest: string)
    requires (quote == '"' || quote == '\'') && quote !in text && (quote == '"' ==> '\\' !in text)
    ensures Scan([quote] + text + [quote] + rest) == Before([text], Scan(rest))
  {
    var t := [quote] + text + [quote] + rest;
    assert t[1..] == text + ([quote] + rest);
    QuoteEndIs(text, quote, rest);
    assert t[1..][..|text|] == text && t[1..][|text| + 1..] == rest;
    QuotedTurnText(t);
    QuoteStartsAWord(t);
    QuotedScan(t);
  }

  lemma BareStartsAWord(text: string, rest: string)
    requires Legal(Bare(text)) && (rest == "" || IsSpace(rest[0]) || rest[0] == ';')
    ensures SkipBlanks(text + rest) == text + rest && !EndsCall(text + rest)
  {
    var t := text + rest;
    assert text[0..] == text && t[0] == text[0];
    assert |t| >= 2 ==> t[1] == if |text| >= 2 then text[1] else rest[0];
    assert forall k :: 0 <= k < |text| ==> t[k] == text[k];
  }

  lemma BareTurnText(text: string, rest: string)
    requires text != "" && text[0] != '"' && text[0] != '\'' && WordEnd(text + rest) == |text|
    ensures Turn(text + rest) == (text, rest)
  {
    assert (text + rest)[..|text|] == text && (text + rest)[|text|..] == rest;
  }

  lemma BareIsOneTurn(text: string, rest: string)
    requires Legal(Bare(text)) && (rest == "" || IsSpace(rest[0]) || rest[0] == ';')
    ensures Scan(text + rest) == Before([text], Scan(rest))
  {
    WordEndIs(text, rest);
    BareTurnText(text, rest);
    BareStartsAWord(text, rest);
    ScanTurn(text + rest);
  }

  /** A legal word is read in one turn, whatever ends it. */
  lemma WordIsOneTurn(w: Word, rest: string)
    requires Legal(w) && (rest == "" || IsSpace(rest[0]) || rest[0] == ';')
    ensures Scan(Rendered(w) + rest) == Before([w.text], Scan(rest))
  {
    match w {
      case DoubleQuoted(text) =>
        QuotedIsOneTurn(text, '"', rest);
        assert Rendered(w) + rest == ['"'] + text + ['"'] + rest;
      case SingleQuoted(text) =>
        QuotedIsOneTurn(text, '\'', rest);
        assert Rendered(w) + rest == ['\''] + text + ['\''] + rest;
      case Bare(text) =>
        BareIsOneTurn(text, rest);
    }
  }

  lemma BlankBefore(t: string)
    ensures Scan(" " + t) == Scan(t)
  {
    assert (" " + t)[1..] == t;
    SkipBlanksTwice(t);
    SkipBlanksTwice(" " + t);
  }

  lemma RenderStart(words: seq<Word>, tail: string)
    requires tail == "" || IsSpace(tail[0]) || tail[0] == ';'
    ensures Render(words, tail) == "" || IsSpace(Render(words, tail)[0]) || Render(words, tail)[0] == ';'
  {
  }

  /** Reading t yields these arguments first, and then what reading `rest` yields. */
  ghost predicate ReadsBefore(t: string, args: seq<string>, rest: string) {
    Scan(t) == Before(args, Scan(rest))
  }

  lemma ReadsOneWord(w: Word, rest: string)
    requires Legal(w) && (rest == "" || IsSpace(rest[0]) || rest[0] == ';')
    ensures ReadsBefore(" " + (Rendered(w) + rest), [w.text], rest)
  {
    WordIsOneTurn(w, rest);
    BlankBefore(Rendered(w) + rest);
  }

  lemma ReadsOn(t: string, args: seq<string>, middle: string, more: seq<string>, rest: string)
    requires ReadsBefore(t, args, middle) && ReadsBefore(middle, more, rest)
    ensures ReadsBefore(t, args + more, rest)
  {
    BeforeTwice(args, more, Scan(rest));
  }

  lemma ReadsNothing(t: string)
    ensures ReadsBefore(t, [], t)
  {
    assert [] + Scan(t).args == Scan(t).args;
  }

  /** Any list of legal words is read back as exactly that list; the loop then goes on as it does on what follows. */
  lemma {:induction false} RenderedWordsAreReadBack(words: seq<Word>, tail: string)
    requires forall i :: 0 <= i < |words| ==> Legal(words[i])
    requires tail == "" || IsSpace(tail[0]) || tail[0] == ';'
    ensures ReadsBefore(Render(words, tail), Texts(words), tail)
  {
    if words == [] {
      ReadsNothing(tail);
    } else {
      assert Legal(words[0]);
      RenderedWordsAreReadBack(words[1..], tail);
      OneMoreWord(words, tail);
    }
  }

  lemma TextsStep(words: seq<Word>)
    requires words != []
    ensures Texts(words) == [words[0].text] + Texts(words[1..])
  {
  }

  lemma OneMoreWord(words: seq<Word>, tail: string)
    requires words != [] && Legal(words[0]) && (tail == "" || IsSpace(tail[0]) || tail[0] == ';')
    requires ReadsBefore(Render(words[1..], tail), Texts(words[1..]), tail)
    ensures ReadsBefore(Render(words, tail), Texts(words), tail)
  {
    RenderStart(words[1..], tail);
    TextsStep(words);
    ReadsWordThen(words[0], Render(words[1..], tail), Texts(words[1..]), tail, Render(words, tail), Texts(words));
  }

  lemma ReadsWordThen(w: Word, rest: string, more: seq<string>, tail: string, t: string, all: seq<string>)
    requires Legal(w) && (rest == "" || IsSpace(rest[0]) || rest[0] == ';') && ReadsBefore(rest, more, tail)
    requires t == " " + (Rendered(w) + rest) && all == [w.text] + more
    ensures ReadsBefore(t, all, tail)
  {
    ReadsOneWord(w, rest);
    ReadsOn(t, [w.text], rest, more, tail);
  }

  /** Rendered before `; then`, the words come back and the loop ends; before a CRLF it never ends. */
  lemma RoundTrip(before: string, words: seq<Word>, after: string)
    requires forall i :: 0 <= i < |words| ==> Legal(words[i])
    ensures Scan((before + Render(words, ";" + after))[|before|..]) == Scanned(Texts(words), true)
    ensures Scan((before + Render(words, "\r" + after))[|before|..]) == Scanned(Texts(words), false)
  {
    assert (before + Render(words, ";" + after))[|before|..] == Render(words, ";" + after);
    assert (before + Render(words, "\r" + after))[|before|..] == Render(words, "\r" + after);
    RenderedWordsAreReadBack(words, ";" + after);
    RenderedWordsAreReadBack(words, "\r" + after);
    var stray := "\r" + after;
    NoProgressExactlyAtStrayBlanks(stray);
    ScanTurn(stray);
    assert Texts(words) + [] == Texts(words);
  }

  lemma CapitalsAre(c: char)
    ensures 'A' <= c <= 'Z' <==> exists i | 0 <= i < 26 :: c == "ABCDEFGHIJKLMNOPQRSTUVWXYZ"[i]
  {
    if 'A' <= c <= 'Z' { assert c == "ABCDEFGHIJKLMNOPQRSTUVWXYZ"[c as int - 'A' as int]; }
  }

  lemma SmallLettersAre(c: char)
    ensures 'a' <= c <= 'z' <==> exists i | 0 <= i < 26 :: c == "abcdefghijklmnopqrstuvwxyz"[i]
  {
    if 'a' <= c <= 'z' { assert c == "abcdefghijklmnopqrstuvwxyz"[c as int - 'a' as int]; }
  }

  lemma DigitsAre(c: char)
    ensures '0' <= c <= '9' <==> exists i | 0 <= i < 10 :: c == "0123456789"[i]
  {
    if '0' <= c <= '9' { assert c == "0123456789"[c as int - '0' as int]; }
  }

  /** Letters, digits and the underscore. */
  lemma WordCharsAre(c: char)
    ensures IsWordChar(c) <==>
            || (exists i | 0 <= i < 26 :: c == "ABCDEFGHIJKLMNOPQRSTUVWXYZ"[i])
            || (exists i | 0 <= i < 26 :: c == "abcdefghijklmnopqrstuvwxyz"[i])
            || (exists i | 0 <= i < 10 :: c == "0123456789"[i]) || c == '_'
  {
    CapitalsAre(c);
    SmallLettersAre(c);
    DigitsAre(c);
  }

  /** Where a call ends: at its script's end, a newline, `;`, `&&`, `||`, a comment, or the word `then`. */
  lemma CallEndsExactlyWhen(t: string)
    ensures EndsCall(t) <==>
            || t == "" || StartsWith(t, "\n") || StartsWith(t, ";") || StartsWith(t, "#")
            || StartsWith(t, "&&") || StartsWith(t, "||")
            || (StartsWith(t, "then") && (|t| == 4 || !IsWordChar(t[4])))
  {
    if |t| >= 2 { assert t[..2] == [t[0], t[1]]; }
    if |t| >= 1 { assert t[..1] == [t[0]]; }
    if |t| >= 4 { assert t[..4] == [t[0], t[1], t[2], t[3]]; }
  }

  /** Whatever ends the call, after blanks or at once, the words before it come back. */
  lemma RoundTripBeforeAnyEnd(words: seq<Word>, tail: string)
    requires forall i :: 0 <= i < |words| ==> Legal(words[i])
    requires (tail == "" || IsSpace(tail[0]) || tail[0] == ';') && EndsCall(SkipBlanks(tail))
    ensures Scan(Render(words, tail)) == Scanned(Texts(words), true)
  {
    RenderedWordsAreReadBack(words, tail);
    assert Texts(words) + [] == Texts(words);
  }

  // ---- The parsed call ----

  datatype Check = Check(name: string, repo: string, pin: Option<string>, prefix: Option<string>)

  datatype Reason = NoCall | MissingArgument | NameNotLiteral | RepoNotLiteral | PinUnresolved | PrefixNotLiteral

  /** Diverges: the tokenizer never returns. */
  datatype Parsed = Parsed(check: Check) | Failed(reason: Reason) | Diverges

  const CALL_MARKER := "check_for_gh_release"

  /** JavaScript's indexOf. */
  function IndexOf(s: string, marker: string): (r: Option<nat>)
    ensures r.Some? ==> r.value + |marker| <= |s|
  {
    if StartsWith(s, marker) then Some(0)
    else if s == "" then None
    else match IndexOf(s[1..], marker) case None => None case Some(k) => Some(k + 1)
  }

  predicate IsRepoChar(c: char) {
    'A' <= c <= 'Z' || 'a' <= c <= 'z' || '0' <= c <= '9' || c == '.' || c == '_' || c == '-'
  }

  predicate IsName(s: string) {
    s != "" && forall i :: 0 <= i < |s| ==> IsRepoChar(s[i]) || s[i] == ' '
  }

  predicate IsRepo(s: string) {
    exists slash | 0 < slash < |s| - 1 ::
      s[slash] == '/' && forall i :: 0 <= i < |s| && i != slash ==> IsRepoChar(s[i])
  }

  function Lower(c: char): char {
    if 'A' <= c <= 'Z' then c - 'A' + 'a' else c
  }

  /** Lower case, without spaces. */
  function Compact(s: string): string {
    if s == "" then "" else (if s[0] == ' ' then "" else [Lower(s[0])]) + Compact(s[1..])
  }

  predicate IsIdentifier(s: string) {
    s != "" && !('0' <= s[0] <= '9') && forall i :: 0 <= i < |s| ==> IsWordChar(s[i])
  }

  /** The variable that $VAR or ${VAR} names; either brace alone is taken too. */
  function VariableIn(s: string): Option<string> {
    if s == "" || s[0] != '$' then None
    else
      var inside := if StartsWith(s[1..], "{") then s[2..] else s[1..];
      var name := if inside != "" && inside[|inside| - 1] == '}' then inside[..|inside| - 1] else inside;
      if IsIdentifier(name) then Some(name) else None
  }

  predicate Literal(s: string) {
    '$' !in s
  }

  /** The default in ${name:-default}. */
  function DefaultIn(value: string, name: string): Option<string> {
    var open := "${" + name + ":-";
    if StartsWith(value, open) && |value| > |open| && value[|value| - 1] == '}'
       && '}' !in value[|open|..|value| - 1]
    then Some(value[|open|..|value| - 1])
    else None
  }

  /** `assignments` gives the quoted values the script assigns to a variable, in order. */
  function ResolveVariable(name: string, assignments: string -> seq<string>): Option<string> {
    var values := assignments(name);
    if |values| != 1 then None
    else if Literal(values[0]) then Some(values[0])
    else match DefaultIn(values[0], name)
      case None => None
      case Some(fallback) => if Literal(fallback) then Some(fallback) else None
  }

  function ResolvePin(raw: string, assignments: string -> seq<string>): Option<string> {
    if Literal(raw) then Some(raw)
    else match VariableIn(raw) case None => None case Some(name) => ResolveVariable(name, assignments)
  }

  /** An argument that is missing or blank counts as not given. */
  function Given(s: string): Option<string> {
    if s == "" then None else Some(s)
  }

  function ArgAt(args: seq<string>, k: nat): string {
    if k < |args| then args[k] else ""
  }

  function CheckOf(args: seq<string>, assignments: string -> seq<string>): Parsed {
    if |args| < 2 then Failed(MissingArgument)
    else if !IsName(args[0]) then Failed(NameNotLiteral)
    else if !IsRepo(args[1]) then Failed(RepoNotLiteral)
    else
      match ResolvePin(ArgAt(args, 2), assignments)
      case None => Failed(PinUnresolved)
      case Some(pin) =>
        if !Literal(ArgAt(args, 4)) then Failed(PrefixNotLiteral)
        else Parsed(Check(Compact(args[0]), args[1], Given(pin), Given(ArgAt(args, 4))))
  }

  method ParseReleaseCheck(script: string, assignments: string -> seq<string>) returns (r: Parsed)
    ensures IndexOf(script, "check_for_gh_release").None? ==> r == Failed(NoCall)
    ensures IndexOf(script, "check_for_gh_release").Some? ==>
              var scanned := Scan(script[IndexOf(script, "check_for_gh_release").value + 20..]);
              r == if scanned.ends then CheckOf(scanned.args, assignments) else Diverges
  {
    var at := IndexOf(script, CALL_MARKER);
    if at.None? { return Failed(NoCall); }
    var args, ends := TokenizeCallArgs(script, at.value + |CALL_MARKER|);
    r := if ends then CheckOf(args, assignments) else Diverges;
  }

  lemma {:induction false} CompactIsLiteral(s: string)
    requires forall i :: 0 <= i < |s| ==> IsRepoChar(s[i]) || s[i] == ' '
    ensures Literal(Compact(s)) && ' ' !in Compact(s)
    ensures forall i :: 0 <= i < |Compact(s)| ==> !('A' <= Compact(s)[i] <= 'Z')
  {
    if s != "" {
      CompactIsLiteral(s[1..]);
    }
  }

  lemma LiteralPin(raw: string, assignments: string -> seq<string>)
    ensures Literal(raw) ==> ResolvePin(raw, assignments) == Some(raw)
    ensures ResolvePin(raw, assignments).Some? ==> Literal(ResolvePin(raw, assignments).value)
  {
  }

  lemma RepoIsLiteral(s: string)
    requires IsRepo(s)
    ensures Literal(s)
  {
  }

  /** Whatever the script says, nothing of a parsed call is left for a shell to expand. */
  lemma ParsedCallIsLiteral(args: seq<string>, assignments: string -> seq<string>)
    requires CheckOf(args, assignments).Parsed?
    ensures var check := CheckOf(args, assignments).check;
            Literal(check.name) && Literal(check.repo)
            && (check.pin.Some? ==> Literal(check.pin.value)) && (check.prefix.Some? ==> Literal(check.prefix.value))
  {
    CompactIsLiteral(args[0]);
    RepoIsLiteral(args[1]);
    LiteralPin(ArgAt(args, 2), assignments);
  }

  lemma LiteralArguments(args: seq<string>, assignments: string -> seq<string>)
    requires |args| >= 2 && IsName(args[0]) && IsRepo(args[1]) && Literal(ArgAt(args, 2)) && Literal(ArgAt(args, 4))
    ensures CheckOf(args, assignments)
         == Parsed(Check(Compact(args[0]), args[1], Given(ArgAt(args, 2)), Given(ArgAt(args, 4))))
  {
    LiteralPin(ArgAt(args, 2), assignments);
  }

  lemma TextAt(words: seq<Word>, k: nat)
    ensures ArgAt(Texts(words), k) == if k < |words| then words[k].text else ""
  {
  }

  /** A call written with literal words is parsed to exactly those words. */
  lemma LiteralCallIsReadExactly(before: string, words: seq<Word>, after: string, assignments: string -> seq<string>)
    requires forall i :: 0 <= i < |words| ==> Legal(words[i]) && Literal(words[i].text)
    requires |words| >= 2 && IsName(words[0].text) && IsRepo(words[1].text)
    ensures Scan((before + Render(words, ";" + after))[|before|..]) == Scanned(Texts(words), true)
    ensures CheckOf(Texts(words), assignments) == Parsed(Check(
              Compact(words[0].text), words[1].text,
              if |words| > 2 then Given(words[2].text) else None,
              if |words| > 4 then Given(words[4].text) else None))
  {
    RoundTrip(before, words, after);
    TextAt(words, 2);
    TextAt(words, 4);
    assert Texts(words)[0] == words[0].text && Texts(words)[1] == words[1].text;
    LiteralArguments(Texts(words), assignments);
  }

  /** A variable set once to a default form resolves to that default, by either way of naming it. */
  lemma DefaultFormResolves(name: string, fallback: string, assignments: string -> seq<string>)
    requires IsIdentifier(name) && Literal(fallback) && '}' !in fallback
    requires assignments(name) == ["${" + name + ":-" + fallback + "}"]
    ensures ResolvePin("$" + name, assignments) == Some(fallback)
    ensures ResolvePin("${" + name + "}", assignments) == Some(fallback)
  {
    var value := "${" + name + ":-" + fallback + "}";
    var open := "${" + name + ":-";
    assert value[..|open|] == open;
    assert value[|open|..|value| - 1] == fallback;
    assert value[0] == '$';
    assert DefaultIn(value, name) == Some(fallback);
    var bare := "$" + name;
    assert bare[1..] == name && bare[0] == '$';
    assert name[0] != '{' && name[|name| - 1] != '}';
    var braced := "${" + name + "}";
    assert braced[2..] == name + "}" && braced[0] == '$' && braced[1] == '{';
    assert (name + "}")[..|name|] == name;
    assert VariableIn(bare) == Some(name);
    assert VariableIn(braced) == Some(name);
  }

  // ---- What the pieces of a call mean ----

  /** The first place of the marker, if it is anywhere. */
  lemma {:induction false} IndexOfIsTheFirst(s: string, marker: string)
    ensures match IndexOf(s, marker)
            case None => forall k :: 0 <= k <= |s| ==> !StartsWith(s[k..], marker)
            case Some(at) => at <= |s| && StartsWith(s[at..], marker) && forall k ::
                0 <= k < at ==> !StartsWith(s[k..], marker)
  {
    assert s[0..] == s;
    if !StartsWith(s, marker) && s != "" {
      IndexOfIsTheFirst(s[1..], marker);
      assert forall k :: 1 <= k <= |s| ==> s[k..] == s[1..][k - 1..];
    }
  }

  lemma RepoCharsAre(c: char)
    ensures IsRepoChar(c) <==> IsWordChar(c) || c == '.' || c == '-'
  {
  }

  /** A name is one or more letters, digits, dots, underscores, hyphens and spaces. */
  lemma NameExactlyWhen(s: string)
    ensures IsName(s) <==> s != "" && forall c :: c in s ==> IsRepoChar(c) || c == ' '
  {
    if IsName(s) {
      forall c | c in s ensures IsRepoChar(c) || c == ' ' { var i :| 0 <= i < |s| && s[i] == c; }
    }
  }

  /** A repository is an owner and a name with one slash between them. */
  lemma RepoExactlyWhen(s: string)
    ensures IsRepo(s) <==>
            exists owner, name :: s == owner + "/" + name && IsSegment(owner) && IsSegment(name)
  {
    if IsRepo(s) {
      var slash :| 0 < slash < |s| - 1 && s[slash] == '/' && forall i ::
          0 <= i < |s| && i != slash ==> IsRepoChar(s[i]);
      assert s == s[..slash] + "/" + s[slash + 1..];
      assert IsSegment(s[..slash]) && IsSegment(s[slash + 1..]);
    }
    if owner, name :| s == owner + "/" + name && IsSegment(owner) && IsSegment(name) {
      var slash := |owner|;
      forall i | 0 <= i < |s| && i != slash ensures IsRepoChar(s[i]) {
        assert s[i] == if i < slash then owner[i] else name[i - slash - 1];
      }
      assert s[slash] == '/';
    }
  }

  predicate IsSegment(s: string) {
    s != "" && forall i :: 0 <= i < |s| ==> IsRepoChar(s[i])
  }

  /** Character by character: capitals become small, spaces go, everything else stays. */
  lemma {:induction false} CompactOfBoth(a: string, b: string)
    ensures Compact(a + b) == Compact(a) + Compact(b)
  {
    if a == "" {
      assert a + b == b;
    } else {
      var first := if a[0] == ' ' then "" else [Lower(a[0])];
      assert (a + b)[1..] == a[1..] + b && (a + b)[0] == a[0];
      CompactOfBoth(a[1..], b);
      assert first + (Compact(a[1..]) + Compact(b)) == first + Compact(a[1..]) + Compact(b);
    }
  }

  lemma CompactOfOne(c: char)
    ensures c == ' ' ==> Compact([c]) == ""
    ensures forall i :: 0 <= i < 26 && c == "ABCDEFGHIJKLMNOPQRSTUVWXYZ"[i] ==>
            Compact([c]) == ["abcdefghijklmnopqrstuvwxyz"[i]]
    ensures c != ' ' && c !in "ABCDEFGHIJKLMNOPQRSTUVWXYZ" ==> Compact([c]) == [c]
  {
    assert Compact([c][1..]) == "";
    if 'A' <= c <= 'Z' {
      assert c == "ABCDEFGHIJKLMNOPQRSTUVWXYZ"[c as int - 'A' as int];
    }
  }

  lemma IdentifierExactlyWhen(s: string)
    ensures IsIdentifier(s) <==> s != "" && s[0] !in "0123456789" && forall i :: 0 <= i < |s| ==> IsWordChar(s[i])
  {
    if s != "" && '0' <= s[0] <= '9' { assert s[0] == "0123456789"[s[0] as int - '0' as int]; }
  }

  /** A reference names its variable with both braces, with neither, or with one of them. */
  lemma VariableExactlyWhen(raw: string, name: string)
    ensures VariableIn(raw) == Some(name) <==>
            IsIdentifier(name) && (raw == "$" + name || raw == "${" + name + "}" || raw == "${" + name
                || raw == "$" + name + "}")
  {
    if IsIdentifier(name)
        && (raw == "$" + name || raw == "${" + name + "}" || raw == "${" + name || raw == "$" + name + "}") {
      VariableForms(raw, name);
    }
    if VariableIn(raw) == Some(name) { VariableText(raw, name); }
  }

  lemma VariableForms(raw: string, name: string)
    requires IsIdentifier(name)
    requires raw == "$" + name || raw == "${" + name + "}" || raw == "${" + name || raw == "$" + name + "}"
    ensures VariableIn(raw) == Some(name)
  {
    assert raw[0] == '$' && name[0] != '{' && name[|name| - 1] != '}';
    var closed := name + "}";
    assert closed[..|name|] == name;
    if raw == "$" + name {
      assert raw[1..] == name;
    } else if raw == "$" + name + "}" {
      assert raw[1..] == closed;
    } else if raw == "${" + name {
      assert raw[1] == '{' && raw[2..] == name;
    } else {
      assert raw[1] == '{' && raw[2..] == closed;
    }
  }

  lemma VariableText(raw: string, name: string)
    requires VariableIn(raw) == Some(name)
    ensures IsIdentifier(name)
    ensures raw == "$" + name || raw == "${" + name + "}" || raw == "${" + name || raw == "$" + name + "}"
  {
    assert raw == "$" + raw[1..];
    if StartsWith(raw[1..], "{") { assert raw == "${" + raw[2..]; }
    var inside := if StartsWith(raw[1..], "{") then raw[2..] else raw[1..];
    if inside != "" && inside[|inside| - 1] == '}' { assert inside == name + "}"; }
  }

  /** A default form is exactly ${name:-default} with no closing brace in the default. */
  lemma DefaultExactlyWhen(value: string, name: string, fallback: string)
    ensures DefaultIn(value, name) == Some(fallback) <==>
            value == "${" + name + ":-" + fallback + "}" && '}' !in fallback
  {
    var open := "${" + name + ":-";
    if DefaultIn(value, name) == Some(fallback) {
      assert value == value[..|open|] + value[|open|..|value| - 1] + [value[|value| - 1]];
    }
    if value == "${" + name + ":-" + fallback + "}" && '}' !in fallback {
      assert value == open + fallback + "}";
      assert value[..|open|] == open && value[|open|..|value| - 1] == fallback;
    }
  }

  /** What the one value assigned to a variable stands for: itself, or the default in it. */
  predicate StandsFor(name: string, value: string, pin: string) {
    Literal(pin) && (value == pin || (value == "${" + name + ":-" + pin + "}" && '}' !in pin))
  }

  /** A pin is resolved to itself if literal, else through the one assignment of the variable it names. */
  lemma PinExactlyWhen(raw: string, assignments: string -> seq<string>, pin: string)
    ensures ResolvePin(raw, assignments) == Some(pin) <==>
            if '$' !in raw then pin == raw
            else VariableIn(raw).Some?
                 && var name := VariableIn(raw).value;
                    |assignments(name)| == 1 && StandsFor(name, assignments(name)[0], pin)
  {
    if '$' in raw && VariableIn(raw).Some? {
      var name := VariableIn(raw).value;
      if |assignments(name)| == 1 {
        DefaultExactlyWhen(assignments(name)[0], name, pin);
        var value := assignments(name)[0];
        if value == "${" + name + ":-" + pin + "}" { assert value[0] == '$'; }
      }
    }
  }

  /** The argument at that place, blank if there is none. */
  predicate IsArgument(args: seq<string>, k: nat, text: string) {
    text == if k < |args| then args[k] else ""
  }

  /** What a call is parsed to, and which reason it fails for: the first that holds. */
  lemma ParsedExactlyWhen(args: seq<string>, assignments: string -> seq<string>, pin: string, prefix: string)
    requires IsArgument(args, 2, pin) && IsArgument(args, 4, prefix)
    ensures var r, resolved := CheckOf(args, assignments), ResolvePin(pin, assignments);
            && (r == Failed(MissingArgument) <==> |args| < 2)
            && (r == Failed(NameNotLiteral) <==> |args| >= 2 && !IsName(args[0]))
            && (r == Failed(RepoNotLiteral) <==> |args| >= 2 && IsName(args[0]) && !IsRepo(args[1]))
            && (r == Failed(PinUnresolved) <==> |args| >= 2 && IsName(args[0]) && IsRepo(args[1]) && resolved == None)
            && (r == Failed(PrefixNotLiteral) <==>
                  |args| >= 2 && IsName(args[0]) && IsRepo(args[1]) && resolved.Some? && '$' in prefix)
            && (|args| >= 2 && IsName(args[0]) && IsRepo(args[1]) && resolved.Some? && '$' !in prefix ==>
                  && r.Parsed? && r.check.name == Compact(args[0]) && r.check.repo == args[1]
                  && (if resolved.value == "" then r.check.pin == None else r.check.pin == Some(resolved.value))
                  && (if prefix == "" then r.check.prefix == None else r.check.prefix == Some(prefix)))
  {
  }
}
