/**
 * The text protocol a connection speaks after its first line: each line is
 * trimmed and then ignored ("/" alone), read as a slash command
 * (tratarComando), handed to the JSON action decoder ("{..."), or broadcast
 * as lobby chat.
 */
module Protocol {
  import opened Wrappers
  import opened Text

  /** The slash commands tratarComando tells apart, with the card id /jogar carries. */
  datatype Command =
    | JoinQueue        // /entrar
    | LeaveQueue       // /sair
    | ShowHand         // /mao
    | ListCards        // /cartas
    | Play(card: int)  // /jogar <id>
    | PlayUsage        // /jogar with no argument
    | BadCardId        // /jogar with an argument Atoi rejects
    | DrawBooster      // /booster
    | Ping             // /ping...
    | Unknown

  /** What the read loop of lidarConexao does with one line, carrying the trimmed text. */
  datatype LineKind =
    | Skip
    | CommandLine(text: string)
    | Structured(text: string)
    | Chat(text: string)

  const PlayPrefix: string := "/jogar "

  /**
   * The argument of a /jogar line: its second space-separated field. A line
   * with the prefix holds a space, so that field always exists.
   */
  function PlayField(line: string): (f: string)
    requires HasPrefix(line, PlayPrefix)
    ensures |Split(line, ' ')| >= 2 && f == Split(line, ' ')[1]
    ensures ' ' !in f
  {
    assert line[6] == ' ';
    CountCharPositive(line, ' ', 6);
    Split(line, ' ')[1]
  }

  /**
   * tratarComando's switch, in its order: the exact commands, then "/jogar "
   * followed by a card id (the second space-separated field, which Atoi must
   * accept), "/booster", any line starting with "/ping", and everything else.
   * The usage branch of /jogar cannot be taken: a line with the prefix holds a
   * space, so it splits into at least two fields. The "/fim" the server's help
   * text advertises is not a command it knows.
   */
  function ParseCommand(line: string): (c: Command)
    ensures c == JoinQueue <==> line == "/entrar"
    ensures c == LeaveQueue <==> line == "/sair"
    ensures c == ShowHand <==> line == "/mao"
    ensures c == ListCards <==> line == "/cartas"
    ensures c == DrawBooster <==> line == "/booster"
    ensures c.Play? <==> HasPrefix(line, PlayPrefix) && Atoi(PlayField(line)).Some?
    ensures c.Play? ==> Atoi(PlayField(line)) == Some(c.card)
    ensures c == BadCardId <==> HasPrefix(line, PlayPrefix) && Atoi(PlayField(line)).None?
    ensures c == Ping <==> HasPrefix(line, "/ping")
    ensures c != PlayUsage
    ensures line == "/fim" ==> c == Unknown
  {
    if line == "/entrar" then assert line[1] == 'e'; JoinQueue
    else if line == "/sair" then assert line[1] == 's'; LeaveQueue
    else if line == "/mao" then assert line[1] == 'm'; ShowHand
    else if line == "/cartas" then assert line[1] == 'c'; ListCards
    else if HasPrefix(line, PlayPrefix) then
      assert line[6] == ' ';
      CountCharPositive(line, ' ', 6);
      var parts := Split(line, ' ');
      if |parts| < 2 then PlayUsage
      else
        match Atoi(parts[1])
        case None => BadCardId
        case Some(n) => Play(n)
    else if line == "/booster" then assert line[1] == 'b'; DrawBooster
    else if HasPrefix(line, "/ping") then Ping
    else Unknown
  }

  /**
   * The read loop's dispatch on a line after TrimSpace: "/" alone is skipped,
   * other lines starting with '/' go to the command parser, lines starting
   * with '{' are JSON actions, and anything else (the empty line included) is
   * chat. Every line but the skipped one carries its trimmed text.
   */
  function ClassifyLine(raw: string): (k: LineKind)
    ensures k == Skip <==> TrimSpace(raw) == "/"
    ensures !k.Skip? ==> k.text == TrimSpace(raw)
    ensures k.CommandLine? <==> HasPrefix(TrimSpace(raw), "/") && TrimSpace(raw) != "/"
    ensures k.Structured? <==> HasPrefix(TrimSpace(raw), "{")
    ensures k.Chat? ==> k.text == [] || (k.text[0] != '/' && k.text[0] != '{')
  {
    var t := TrimSpace(raw);
    if t == "/" then Skip
    else if HasPrefix(t, "/") then CommandLine(t)
    else if HasPrefix(t, "{") then Structured(t)
    else Chat(t)
  }

  // ---------------------------------------------------------------- rendering

  /** The commands a client can type; a /jogar card id must fit Go's int. */
  predicate Renderable(c: Command) {
    && c != PlayUsage
    && (c.Play? ==> MinInt64 <= c.card <= MaxInt64)
  }

  /**
   * The line a client types for a command: the inverse of the parser. Unknown
   * is rendered as "/fim", BadCardId as a /jogar with a non-numeric argument.
   */
  function Render(c: Command): (line: string)
    requires Renderable(c)
    ensures HasPrefix(line, "/") && line != "/"
  {
    match c
    case JoinQueue => "/entrar"
    case LeaveQueue => "/sair"
    case ShowHand => "/mao"
    case ListCards => "/cartas"
    case Play(n) => PlayPrefix + IntToString(n)
    case BadCardId => "/jogar x"
    case DrawBooster => "/booster"
    case Ping => "/ping"
    case Unknown => "/fim"
  }

  /** The argument of "/jogar " followed by a word without spaces is that word. */
  lemma PlayFieldOf(d: string)
    requires ' ' !in d
    ensures PlayField(PlayPrefix + d) == d
  {
    var line := PlayPrefix + d;
    assert line == "/jogar" + [' '] + d;
    SplitAfterPrefix("/jogar", ' ', d);
    SplitWithoutSeparator(d, ' ');
  }

  /** The /jogar line of a card id is read back as that card id. */
  lemma ParsePlayLine(n: int)
    requires MinInt64 <= n <= MaxInt64
    ensures ParseCommand(PlayPrefix + IntToString(n)) == Play(n)
  {
    PlayFieldOf(IntToString(n));
    AtoiOfIntToString(n);
  }

  /**
   * A card id may carry a '+' or '-' sign and leading zeros: "/jogar 05" and
   * "/jogar +5" both play card 5.
   */
  lemma ParsePaddedPlayLine(sign: string, k: nat, n: nat)
    requires sign == "" || sign == "+" || sign == "-"
    requires MinInt64 <= Signed(sign, n) <= MaxInt64
    ensures ParseCommand(PlayPrefix + (sign + (Zeros(k) + NatToString(n)))) == Play(Signed(sign, n))
  {
    var d := sign + (Zeros(k) + NatToString(n));
    AtoiOfPaddedDecimal(sign, k, n);
    assert ' ' !in d by {
      assert IsSignedDecimal(d);
    }
    PlayFieldOf(d);
  }

  /**
   * A card id whose value does not fit Go's int, such as
   * "/jogar 9223372036854775808", is an invalid card id.
   */
  lemma ParseOutOfRangePlayLine(sign: string, k: nat, n: nat)
    requires sign == "" || sign == "+" || sign == "-"
    requires !(MinInt64 <= Signed(sign, n) <= MaxInt64)
    ensures ParseCommand(PlayPrefix + (sign + (Zeros(k) + NatToString(n)))) == BadCardId
  {
    var d := sign + (Zeros(k) + NatToString(n));
    AtoiOfPaddedOutOfRange(sign, k, n);
    assert ' ' !in d by {
      assert forall i :: 0 <= i < |d| ==> IsDigit(d[i]) || d[i] == '+' || d[i] == '-';
    }
    PlayFieldOf(d);
  }

  /** An argument that is not an optional sign followed by digits, such as "5x", is an invalid card id. */
  lemma ParseNonDecimalPlayLine(d: string)
    requires ' ' !in d && !IsSignedDecimal(d)
    ensures ParseCommand(PlayPrefix + d) == BadCardId
  {
    PlayFieldOf(d);
  }

  /** The server reads "/jogar 05" and "/jogar +5" as card 5 and rejects "/jogar 5x". */
  lemma PlayLineExamples()
    ensures ParseCommand("/jogar 05") == Play(5)
    ensures ParseCommand("/jogar +5") == Play(5)
    ensures ParseCommand("/jogar 5x") == BadCardId
  {
    assert NatToString(5) == "5";
    assert "/jogar 05" == PlayPrefix + ("" + (Zeros(1) + NatToString(5)));
    ParsePaddedPlayLine("", 1, 5);
    assert "/jogar +5" == PlayPrefix + ("+" + (Zeros(0) + NatToString(5)));
    ParsePaddedPlayLine("+", 0, 5);
    assert "/jogar 5x" == PlayPrefix + "5x";
    assert !IsDigit("5x"[1]);
    ParseNonDecimalPlayLine("5x");
  }

  /** Every command a client can type is parsed back as that command. */
  lemma ParseRender(c: Command)
    requires Renderable(c)
    ensures ParseCommand(Render(c)) == c
  {
    match c
    case Play(n) => ParsePlayLine(n);
    case BadCardId =>
      assert Render(c) == PlayPrefix + "x";
      assert !IsSignedDecimal("x") by {
        assert !IsDigit("x"[0]);
      }
      ParseNonDecimalPlayLine("x");
    case _ =>
  }

  /** A typed command is read as a command line holding exactly the command's text, and parses back to the command. */
  lemma ClassifyRender(c: Command)
    requires Renderable(c)
    ensures ClassifyLine(Render(c)) == CommandLine(Render(c))
    ensures ParseCommand(ClassifyLine(Render(c)).text) == c
  {
    TrimSpaceOfUnpadded(Render(c));
    ParseRender(c);
  }

  /**
   * White space around a command, such as the line terminator the reader
   * keeps, does not change how the line is read.
   */
  lemma ClassifyPaddedRender(pre: string, c: Command, post: string)
    requires Renderable(c) && AllSpace(pre) && AllSpace(post)
    ensures ClassifyLine(pre + Render(c) + post) == CommandLine(Render(c))
    ensures ParseCommand(ClassifyLine(pre + Render(c) + post).text) == c
  {
    TrimSpacePadded(pre, Render(c), post);
    ClassifyRender(c);
  }

  /** Rendering is injective on the commands a client can type: distinct commands give distinct lines. */
  lemma RenderInjective(c: Command, c': Command)
    requires Renderable(c) && Renderable(c')
    requires Render(c) == Render(c')
    ensures c == c'
  {
    ParseRender(c);
    ParseRender(c');
  }
}
