/**
 Command strings for a remote POSIX shell: shellQuote (src/lib/ssh-client.ts), the wrapping done
 by runRemote (src/lib/targets.ts), and the twice-quoted script of src/lib/authorized-keys.ts.

 The partner of these builders is a lexer for the shell's own reading of a line: token
 recognition with the quoting rules of sections 2.2.1 (escape character) and 2.2.2 (single
 quotes) of the POSIX.1-2017 Shell Command Language.  A line that needs any other rule is refused,
 so no expansion can apply to the words of an accepted line.
 */
module ShellText {
  import opened Wrappers

  // ---- The builders ----

  /** A single quote becomes: close, escaped quote, reopen. */
  function EscapeChar(c: char): string {
    if c == '\'' then "'\\''" else [c]
  }

  function EscapeQuotes(value: string): string {
    if value == "" then "" else EscapeChar(value[0]) + EscapeQuotes(value[1..])
  }

  function ShellQuote(value: string): string {
    "'" + EscapeQuotes(value) + "'"
  }

  function Decimal(n: nat): string {
    if n < 10 then ["0123456789"[n]] else Decimal(n / 10) + ["0123456789"[n % 10]]
  }

  /** A command line: literal words, quoted values and operators, one blank apart. */
  datatype Piece = Literal(text: string) | Quoted(value: string) | Operator(text: string)

  function TextOf(p: Piece): string {
    match p
    case Literal(text) => text
    case Quoted(value) => ShellQuote(value)
    case Operator(text) => text
  }

  function Line(pieces: seq<Piece>): string {
    if pieces == [] then "" else TextOf(pieces[0]) + if |pieces| == 1 then "" else " " + Line(pieces[1..])
  }

  const SHELL: seq<Piece> := [Literal("--"), Literal("sh"), Literal("-c")]

  /** pct exec <vmid> -- sh -c '<command>' */
  function LxcCommand(vmid: nat, command: string): string {
    Line([Literal("pct"), Literal("exec"), Literal(Decimal(vmid))] + SHELL + [Quoted(command)])
  }

  const VM_EXEC_TIMEOUT_SECONDS: nat := 60

  /** qm guest exec <vmid> --timeout 60 -- sh -c '<command>' */
  function VmCommand(vmid: nat, command: string): string {
    Line([Literal("qm"), Literal("guest"), Literal("exec"), Literal(Decimal(vmid)),
          Literal("--timeout"), Literal(Decimal(VM_EXEC_TIMEOUT_SECONDS))] + SHELL + [Quoted(command)])
  }

  const SSH_DIR := "/root/.ssh"
  const KEYS_FILE := SSH_DIR + "/" + "authorized_keys"

  const AND: seq<Piece> := [Operator("&&")]

  function Mkdir(dir: string): seq<Piece> {
    [Literal("mkdir"), Literal("-p"), Literal(dir)]
  }

  function Chmod(mode: string, path: string): seq<Piece> {
    [Literal("chmod"), Literal(mode), Literal(path)]
  }

  /** printf '%s\n' '<text>' > <path> */
  function PrintTo(text: string, path: string): seq<Piece> {
    [Literal("printf"), Quoted("%s\\n"), Quoted(text), Operator(">"), Literal(path)]
  }

  function KeysPieces(keysContent: string): seq<Piece> {
    Mkdir(SSH_DIR) + AND + Chmod("700", SSH_DIR) + AND + PrintTo(keysContent, KEYS_FILE) + AND + Chmod("600", KEYS_FILE)
  }

  function KeysScript(keysContent: string): string {
    Line(KeysPieces(keysContent))
  }

  function AuthorizedKeysWriteScript(vmid: nat, keysContent: string): string {
    LxcCommand(vmid, KeysScript(keysContent))
  }

  // ---- The shell's reading ----

  datatype Token = Word(text: string) | Op(text: string)

  datatype LexError = Unterminated | NeedsOtherRule(c: char)

  predicate IsOperatorChar(c: char) {
    c == '&' || c == '|' || c == ';' || c == '<' || c == '>' || c == '(' || c == ')'
  }

  predicate IsTwoCharOperator(a: char, b: char) {
    (a == b && (a == '&' || a == '|' || a == ';' || a == '>'))
    || (a == '<' && (b == '&' || b == '>')) || (a == '>' && (b == '&' || b == '|'))
  }

  /** Unquoted, these start an expansion, another kind of quoting, a comment or a here-document. */
  predicate IsOtherRule(c: char) {
    c == '$' || c == '`' || c == '"' || c == '*' || c == '?' || c == '['
    || c == '#' || c == '~' || c == '=' || c == '%' || c == '!' || c == '{' || c == '}'
  }

  /** An unquoted character that only adds itself to the word. */
  predicate IsPlain(c: char) {
    !IsOperatorChar(c) && !IsOtherRule(c) && c != '\'' && c != '\\' && c != ' ' && c != '\t' && c != '\n'
  }

  function Flush(word: Option<string>): seq<Token> {
    if word.Some? then [Word(word.value)] else []
  }

  function Prepend(tokens: seq<Token>, r: Result<seq<Token>, LexError>): Result<seq<Token>, LexError> {
    match r
    case Ok(more) => Ok(tokens + more)
    case Err(e) => Err(e)
  }

  /** Tokens of s; `word` is the word being read, if one has begun. */
  function Lex(s: string, quoted: bool, word: Option<string>): Result<seq<Token>, LexError> {
    if quoted then
      if s == "" then Err(Unterminated)
      else if s[0] == '\'' then Lex(s[1..], false, word)
      else Lex(s[1..], true, Some(word.GetOr("") + [s[0]]))
    else if s == "" then Ok(Flush(word))
    else if s[0] == '\'' then Lex(s[1..], true, Some(word.GetOr("")))
    else if s[0] == '\\' then
      if |s| == 1 then Err(Unterminated)
      else if s[1] == '\n' then Lex(s[2..], false, word)
      else Lex(s[2..], false, Some(word.GetOr("") + [s[1]]))
    else if s[0] == ' ' || s[0] == '\t' then Prepend(Flush(word), Lex(s[1..], false, None))
    else if s[0] == '\n' then Prepend(Flush(word) + [Op("\n")], Lex(s[1..], false, None))
    else if |s| >= 2 && IsTwoCharOperator(s[0], s[1]) then Prepend(Flush(word) + [Op(s[..2])], Lex(s[2..], false, None))
    else if |s| >= 2 && s[0] == '<' && s[1] == '<' then Err(NeedsOtherRule('<'))
    else if IsOperatorChar(s[0]) then Prepend(Flush(word) + [Op(s[..1])], Lex(s[1..], false, None))
    else if IsOtherRule(s[0]) then Err(NeedsOtherRule(s[0]))
    else Lex(s[1..], false, Some(word.GetOr("") + [s[0]]))
  }

  function Tokens(line: string): Result<seq<Token>, LexError> {
    Lex(line, false, None)
  }

  // ---- shellQuote is read back as one literal word ----

  /** Close, escaped quote, reopen: a quote is added to the word, and the quotes are open again. */
  lemma EscapedQuote(tail: string, word: string)
    ensures Lex("'\\''" + tail, true, Some(word)) == Lex(tail, true, Some(word + ['\'']))
  {
    var text := "'\\''" + tail;
    assert text[1..] == "\\''" + tail;
    assert text[1..][2..] == "'" + tail;
    assert ("'" + tail)[1..] == tail;
    assert Lex(text, true, Some(word)) == Lex("\\''" + tail, false, Some(word));
    assert Lex("\\''" + tail, false, Some(word)) == Lex("'" + tail, false, Some(word + ['\'']));
    assert Lex("'" + tail, false, Some(word + ['\''])) == Lex(tail, true, Some(word + ['\'']));
  }

  lemma InsideOneChar(c: char, tail: string, word: string)
    requires c != '\''
    ensures Lex([c] + tail, true, Some(word)) == Lex(tail, true, Some(word + [c]))
  {
    assert ([c] + tail)[1..] == tail;
  }

  lemma OneMoreChar(c: char, tail: string, more: string, rest: string, word: string)
    requires Lex(tail, true, Some(word + [c])) == Lex(rest, false, Some(word + [c] + more))
    ensures Lex(EscapeChar(c) + tail, true, Some(word)) == Lex(rest, false, Some(word + ([c] + more)))
  {
    assert word + [c] + more == word + ([c] + more);
    if c == '\'' {
      EscapedQuote(tail, word);
    } else {
      InsideOneChar(c, tail, word);
    }
  }

  lemma NoMoreChars(rest: string, word: string)
    ensures Lex("'" + rest, true, Some(word)) == Lex(rest, false, Some(word))
  {
    assert ("'" + rest)[1..] == rest;
  }

  lemma {:induction false} InsideQuotes(value: string, rest: string, word: string)
    ensures Lex(EscapeQuotes(value) + ("'" + rest), true, Some(word)) == Lex(rest, false, Some(word + value))
    decreases |value|
  {
    if value == "" {
      NoMoreChars(rest, word);
      assert word + value == word && EscapeQuotes(value) + ("'" + rest) == "'" + rest;
    } else {
      var tail := EscapeQuotes(value[1..]) + ("'" + rest);
      InsideQuotes(value[1..], rest, word + [value[0]]);
      OneMoreChar(value[0], tail, value[1..], rest, word);
      assert [value[0]] + value[1..] == value;
      assert EscapeQuotes(value) + ("'" + rest) == EscapeChar(value[0]) + tail;
    }
  }

  /** Wherever it stands, a quoted value adds exactly itself to the word being read. */
  lemma QuotedValueIsLiteral(value: string, rest: string, word: Option<string>)
    ensures Lex(ShellQuote(value) + rest, false, word) == Lex(rest, false, Some(word.GetOr("") + value))
  {
    var text := ShellQuote(value) + rest;
    assert text[1..] == EscapeQuotes(value) + ("'" + rest);
    InsideQuotes(value, rest, word.GetOr(""));
  }

  /** For every string, the shell reads shellQuote(value) as the one word value. */
  lemma ShellQuoteIsOneWord(value: string)
    ensures Tokens(ShellQuote(value)) == Ok([Word(value)])
  {
    QuotedValueIsLiteral(value, "", None);
    assert ShellQuote(value) + "" == ShellQuote(value) && "" + value == value;
  }

  // ---- A line is read as the pieces it was built from ----

  function TokenOf(p: Piece): Token {
    match p
    case Literal(text) => Word(text)
    case Quoted(value) => Word(value)
    case Operator(text) => Op(text)
  }

  function TokensOf(pieces: seq<Piece>): seq<Token> {
    seq(|pieces|, i requires 0 <= i < |pieces| => TokenOf(pieces[i]))
  }

  predicate AllPlain(text: string) {
    text == "" || (IsPlain(text[0]) && AllPlain(text[1..]))
  }

  lemma {:induction false} PlainChars(text: string)
    requires forall i :: 0 <= i < |text| ==> IsPlain(text[i])
    ensures AllPlain(text)
  {
    if text != "" {
      PlainChars(text[1..]);
    }
  }

  predicate IsNameChar(c: char) {
    'a' <= c <= 'z' || '0' <= c <= '9' || c == '-' || c == '/' || c == '.' || c == '_'
  }

  lemma NameIsPlain(text: string)
    requires forall i :: 0 <= i < |text| ==> IsNameChar(text[i])
    ensures AllPlain(text)
  {
    PlainChars(text);
  }

  predicate Proper(p: Piece) {
    match p
    case Literal(text) => text != "" && AllPlain(text)
    case Quoted(_) => true
    case Operator(text) => text == "&&" || text == ">"
  }

  lemma {:induction false} PlainTextIsLiteral(text: string, rest: string, word: Option<string>)
    requires text != "" && AllPlain(text)
    ensures Lex(text + rest, false, word) == Lex(rest, false, Some(word.GetOr("") + text))
    decreases |text|
  {
    var tail := text[1..] + rest;
    assert (text + rest)[1..] == tail && (text + rest)[0] == text[0];
    assert text == [text[0]] + text[1..];
    var begun := word.GetOr("") + [text[0]];
    assert (text + rest)[..1] == [text[0]];
    assert Lex(text + rest, false, word) == Lex(tail, false, Some(begun));
    if |text| == 1 {
      assert text[1..] + rest == rest;
    } else {
      PlainTextIsLiteral(text[1..], rest, Some(begun));
      assert begun + text[1..] == word.GetOr("") + text;
    }
  }

  /** The end of the line, or a blank, ends the word or operator before it. */
  lemma BlankEnds(rest: string, word: Option<string>)
    requires rest == "" || rest[0] == ' '
    ensures Lex(rest, false, word) == Prepend(Flush(word), if rest == "" then Ok([]) else Tokens(rest[1..]))
  {
    assert Flush(word) + [] == Flush(word);
  }

  lemma PrependNothing(r: Result<seq<Token>, LexError>)
    ensures Prepend([], r) == r
  {
    assert r.Ok? ==> [] + r.value == r.value;
  }

  /** One piece, followed by nothing or by a blank, is one token. */
  lemma PieceIsAToken(p: Piece, rest: string)
    requires Proper(p) && (rest == "" || rest[0] == ' ')
    ensures Tokens(TextOf(p) + rest) == Prepend([TokenOf(p)], if rest == "" then Ok([]) else Tokens(rest[1..]))
  {
    match p {
      case Literal(text) =>
        PlainTextIsLiteral(text, rest, None);
        assert "" + text == text;
        BlankEnds(rest, Some(text));
      case Quoted(value) =>
        QuotedValueIsLiteral(value, rest, None);
        assert "" + value == value;
        BlankEnds(rest, Some(value));
      case Operator(text) =>
        OperatorIsAToken(text, rest);
    }
  }

  predicate AllProper(pieces: seq<Piece>) {
    forall i :: 0 <= i < |pieces| ==> Proper(pieces[i])
  }

  lemma FirstPiece(p: Piece, rest: string, more: seq<Token>)
    requires Proper(p) && (rest == "" ==> more == [])
            && (rest != "" ==> rest[0] == ' ' && Tokens(rest[1..]) == Ok(more))
    ensures Tokens(TextOf(p) + rest) == Ok([TokenOf(p)] + more)
  {
    PieceIsAToken(p, rest);
  }

  /** A line of proper pieces is read as exactly those pieces. */
  lemma {:induction false} LineIsItsPieces(pieces: seq<Piece>)
    requires AllProper(pieces)
    ensures Tokens(Line(pieces)) == Ok(TokensOf(pieces))
  {
    if pieces != [] {
      var rest := if |pieces| == 1 then "" else " " + Line(pieces[1..]);
      assert |pieces| > 1 ==> rest[1..] == Line(pieces[1..]);
      LineIsItsPieces(pieces[1..]);
      FirstPiece(pieces[0], rest, TokensOf(pieces[1..]));
      TokensOfFirst(pieces);
      assert |pieces| == 1 ==> TokensOf(pieces[1..]) == [];
    } else {
      assert TokensOf(pieces) == [];
    }
  }

  lemma TokensOfFirst(pieces: seq<Piece>)
    requires pieces != []
    ensures TokensOf(pieces) == [TokenOf(pieces[0])] + TokensOf(pieces[1..])
  {
  }

  lemma OperatorIsAToken(text: string, rest: string)
    requires text == "&&" || text == ">"
    requires rest == "" || rest[0] == ' '
    ensures Tokens(text + rest) == Prepend([Op(text)], if rest == "" then Ok([]) else Tokens(rest[1..]))
  {
    var s := text + rest;
    BlankEnds(rest, None);
    PrependNothing(if rest == "" then Ok([]) else Tokens(rest[1..]));
    assert Flush(None) + [Op(text)] == [Op(text)];
    if text == "&&" {
      assert s[0] == '&' && s[1] == '&' && s[..2] == "&&" && s[2..] == rest;
    } else {
      assert s[0] == '>' && s[..1] == ">" && s[1..] == rest;
      assert |s| >= 2 ==> s[1] == ' ';
    }
  }

  // ---- What the remote side receives ----

  lemma {:induction false} PlainConcat(a: string, b: string)
    requires AllPlain(a) && AllPlain(b)
    ensures AllPlain(a + b)
  {
    if a == "" {
      assert a + b == b;
    } else {
      PlainConcat(a[1..], b);
      assert (a + b)[1..] == a[1..] + b;
    }
  }

  lemma {:induction false} DecimalIsPlain(n: nat)
    ensures Decimal(n) != "" && AllPlain(Decimal(n))
  {
    PlainChars(["0123456789"[n % 10]]);
    if n >= 10 {
      DecimalIsPlain(n / 10);
      PlainConcat(Decimal(n / 10), ["0123456789"[n % 10]]);
    }
  }

  lemma GuestWordsArePlain()
    ensures AllPlain("pct") && AllPlain("exec") && AllPlain("--") && AllPlain("sh") && AllPlain("-c")
    ensures AllPlain("qm") && AllPlain("guest") && AllPlain("--timeout")
  {
    NameIsPlain("pct"); NameIsPlain("exec"); NameIsPlain("--"); NameIsPlain("sh"); NameIsPlain("-c");
    NameIsPlain("qm"); NameIsPlain("guest"); NameIsPlain("--timeout");
  }

  lemma ScriptWordsArePlain()
    ensures AllPlain("mkdir") && AllPlain("-p") && AllPlain("chmod") && AllPlain("700") && AllPlain("600")
            && AllPlain("printf")
  {
    NameIsPlain("mkdir"); NameIsPlain("-p"); NameIsPlain("chmod"); NameIsPlain("700"); NameIsPlain("600");
        NameIsPlain("printf");
  }

  lemma ProperConcat(pieces: seq<Piece>, more: seq<Piece>)
    requires AllProper(pieces) && AllProper(more)
    ensures AllProper(pieces + more) && TokensOf(pieces + more) == TokensOf(pieces) + TokensOf(more)
  {
  }

  lemma ShellArgument(command: string)
    ensures AllProper(SHELL + [Quoted(command)])
    ensures TokensOf(SHELL + [Quoted(command)]) == [Word("--"), Word("sh"), Word("-c"), Word(command)]
  {
    GuestWordsArePlain();
  }

  lemma GuestCommand(guest: seq<Piece>, tokens: seq<Token>, command: string)
    requires AllProper(guest) && TokensOf(guest) == tokens
    ensures Tokens(Line(guest + SHELL + [Quoted(command)]))
            == Ok(tokens + [Word("--"), Word("sh"), Word("-c"), Word(command)])
  {
    ShellArgument(command);
    ProperConcat(guest, SHELL + [Quoted(command)]);
    assert guest + SHELL + [Quoted(command)] == guest + (SHELL + [Quoted(command)]);
    LineIsItsPieces(guest + (SHELL + [Quoted(command)]));
  }

  /** The command inside a container is the command unchanged: one argument of `sh -c`. */
  lemma LxcCommandDeliversTheCommand(vmid: nat, command: string)
    ensures Tokens(LxcCommand(vmid, command))
            == Ok([Word("pct"), Word("exec"), Word(Decimal(vmid))]
                + [Word("--"), Word("sh"), Word("-c"), Word(command)])
  {
    DecimalIsPlain(vmid);
    GuestWordsArePlain();
    ThreeWords("pct", "exec", Decimal(vmid));
    GuestCommand([Literal("pct"), Literal("exec"), Literal(Decimal(vmid))],
        [Word("pct"), Word("exec"), Word(Decimal(vmid))], command);
  }

  lemma VmCommandDeliversTheCommand(vmid: nat, command: string)
    ensures Tokens(VmCommand(vmid, command))
            == Ok([Word("qm"), Word("guest"), Word("exec")]
                + [Word(Decimal(vmid)), Word("--timeout"), Word(Decimal(60))]
                  + [Word("--"), Word("sh"), Word("-c"), Word(command)])
  {
    var first, second :=
        [Literal("qm"), Literal("guest"), Literal("exec")],
        [Literal(Decimal(vmid)), Literal("--timeout"), Literal(Decimal(60))];
    VmWords(vmid);
    ProperConcat(first, second);
    GuestCommand(first + second, TokensOf(first) + TokensOf(second), command);
    assert [Literal("qm"), Literal("guest"), Literal("exec"), Literal(Decimal(vmid)), Literal("--timeout"),
            Literal(Decimal(VM_EXEC_TIMEOUT_SECONDS))] == first + second;
  }

  lemma VmWords(vmid: nat)
    ensures var first := [Literal("qm"), Literal("guest"), Literal("exec")];
            AllProper(first) && TokensOf(first) == [Word("qm"), Word("guest"), Word("exec")]
    ensures var second := [Literal(Decimal(vmid)), Literal("--timeout"), Literal(Decimal(60))];
            AllProper(second) && TokensOf(second) == [Word(Decimal(vmid)), Word("--timeout"), Word(Decimal(60))]
  {
    DecimalIsPlain(vmid);
    DecimalIsPlain(60);
    GuestWordsArePlain();
    ThreeWords("qm", "guest", "exec");
    ThreeWords(Decimal(vmid), "--timeout", Decimal(60));
  }

  lemma KeysFileIsPlain()
    ensures AllPlain(SSH_DIR) && AllPlain(KEYS_FILE)
  {
    NameIsPlain("/root/.ssh"); NameIsPlain("/"); NameIsPlain("authorized_keys");
    PlainConcat(SSH_DIR, "/");
    PlainConcat(SSH_DIR + "/", "authorized_keys");
  }

  lemma ThreeWords(a: string, b: string, c: string)
    requires a != "" && AllPlain(a) && b != "" && AllPlain(b) && c != "" && AllPlain(c)
    ensures AllProper([Literal(a), Literal(b), Literal(c)])
    ensures TokensOf([Literal(a), Literal(b), Literal(c)]) == [Word(a), Word(b), Word(c)]
  {
  }

  lemma PrintToTokens(printf: string, format: string, text: string, path: string)
    requires printf != "" && AllPlain(printf) && path != "" && AllPlain(path)
    ensures var pieces := [Literal(printf), Quoted(format), Quoted(text), Operator(">"), Literal(path)];
            AllProper(pieces) && TokensOf(pieces) == [Word(printf), Word(format), Word(text), Op(">"), Word(path)]
  {
  }

  lemma ThenAnother(pieces: seq<Piece>, tokens: seq<Token>, more: seq<Piece>, moreTokens: seq<Token>)
    requires AllProper(pieces) && TokensOf(pieces) == tokens && AllProper(more) && TokensOf(more) == moreTokens
    ensures AllProper(pieces + AND + more) && TokensOf(pieces + AND + more) == tokens + [Op("&&")] + moreTokens
  {
    ProperConcat(pieces, AND);
    ProperConcat(pieces + AND, more);
    assert TokensOf(AND) == [Op("&&")];
  }

  /** Quoted twice, the key text still reaches printf as one unchanged word. */
  lemma KeysSurviveTwoShells(vmid: nat, keysContent: string)
    ensures Tokens(AuthorizedKeysWriteScript(vmid, keysContent))
            == Ok([Word("pct"), Word("exec"), Word(Decimal(vmid))]
                + [Word("--"), Word("sh"), Word("-c"), Word(KeysScript(keysContent))])
    ensures Tokens(KeysScript(keysContent))
            == Ok([Word("mkdir"), Word("-p"), Word(SSH_DIR)] + [Op("&&")]
                  + [Word("chmod"), Word("700"), Word(SSH_DIR)] + [Op("&&")]
                  + [Word("printf"), Word("%s\\n"), Word(keysContent), Op(">"), Word(KEYS_FILE)] + [Op("&&")]
                  + [Word("chmod"), Word("600"), Word(KEYS_FILE)])
  {
    LxcCommandDeliversTheCommand(vmid, KeysScript(keysContent));
    KeysFileIsPlain();
    ScriptWordsArePlain();
    ThreeWords("mkdir", "-p", SSH_DIR);
    ThreeWords("chmod", "700", SSH_DIR);
    PrintToTokens("printf", "%s\\n", keysContent, KEYS_FILE);
    ThreeWords("chmod", "600", KEYS_FILE);
    var pieces, tokens := Mkdir(SSH_DIR), TokensOf(Mkdir(SSH_DIR));
    ThenAnother(pieces, tokens, Chmod("700", SSH_DIR), TokensOf(Chmod("700", SSH_DIR)));
    pieces, tokens := pieces + AND + Chmod("700", SSH_DIR), tokens + [Op("&&")] + TokensOf(Chmod("700", SSH_DIR));
    ThenAnother(pieces, tokens, PrintTo(keysContent, KEYS_FILE), TokensOf(PrintTo(keysContent, KEYS_FILE)));
    pieces, tokens := pieces + AND + PrintTo(keysContent, KEYS_FILE), tokens + [Op("&&")]
        + TokensOf(PrintTo(keysContent, KEYS_FILE));
    ThenAnother(pieces, tokens, Chmod("600", KEYS_FILE), TokensOf(Chmod("600", KEYS_FILE)));
    LineIsItsPieces(KeysPieces(keysContent));
  }
}
