/**
 * The comment-command parser: which lines of a comment address the bot, what
 * is kept of such a line, and which words become commands.
 */
module Command {
  import opened Wrappers
  import opened Text

  /**
   * The commands the bot understands. The parser builds only `Approve` and
   * `Assign`; `Ping` and `RemoveAssignment` are the other variants the
   * dispatcher matches on.
   */
  datatype Command = Ping | Approve | Assign(users: Option<seq<string>>) | RemoveAssignment

  /** The mention that addresses the bot. */
  function Mention(botName: string): string {
    "@" + botName
  }

  /** A quoted line: its first non-blank character is `>`. */
  predicate IsQuoted(line: string) {
    ">" <= TrimStart(line)
  }

  predicate IsCandidate(pattern: string, line: string) {
    Contains(line, pattern) && !IsQuoted(line)
  }

  /**
   * What a line contributes: nothing unless it mentions the bot and is not
   * quoted; otherwise the line with every occurrence of the text before the
   * first mention deleted.
   */
  function RetainedText(pattern: string, line: string): string {
    if IsCandidate(pattern, line) then
      var cut := Find(line, pattern).value;
      Replace(line, line[..cut], "")
    else
      ""
  }

  // The two ensures below only spell out the comprehension, for the loop
  // proofs that use this function; `RetainedLineAt` states what each line becomes.
  function RetainedLines(pattern: string, input: string): (r: seq<string>)
    ensures |r| == |Lines(input)|
    ensures forall k :: 0 <= k < |r| ==> r[k] == RetainedText(pattern, Lines(input)[k])
  {
    var lines := Lines(input);
    seq(|lines|, k requires 0 <= k < |lines| => RetainedText(pattern, lines[k]))
  }

  /** The lookahead `pieces.clone().skip(i).next()`: the word at index `i` itself. */
  function Nth(words: seq<string>, i: nat): Option<string> {
    if i < |words| then Some(words[i]) else None
  }

  /** The bot's own mention, bare or followed by a colon, is skipped. */
  predicate IsMentionWord(pattern: string, word: string) {
    word == pattern || word == pattern + ":"
  }

  predicate IsApproveWord(word: string) {
    word == "r+"
  }

  predicate IsClaimWord(word: string) {
    word == "c" || word == "claim"
  }

  /** The `users` of a claim at word `i`: the looked-up word split on commas. */
  function ClaimUsers(words: seq<string>, i: nat): Option<seq<string>> {
    match Nth(words, i)
    case Some(u) => Some(Split(u, ','))
    case None => None
  }

  /** The commands word `i` of a retained line produces. */
  function WordCommands(pattern: string, words: seq<string>, i: nat): seq<Command>
    requires i < |words|
  {
    var word := words[i];
    if IsMentionWord(pattern, word) then []
    else
      (if IsApproveWord(word) then [Approve] else [])
      + (if IsClaimWord(word) then [Assign(ClaimUsers(words, i))] else [])
  }

  /** The commands of the first `n` words, in order. */
  function WordsCommands(pattern: string, words: seq<string>, n: nat): seq<Command>
    requires n <= |words|
  {
    if n == 0 then [] else WordsCommands(pattern, words, n - 1) + WordCommands(pattern, words, n - 1)
  }

  function LineCommands(pattern: string, text: string): seq<Command> {
    var words := Words(text);
    WordsCommands(pattern, words, |words|)
  }

  /** The commands of the first `n` retained lines, in order. */
  function LinesCommands(pattern: string, texts: seq<string>, n: nat): seq<Command>
    requires n <= |texts|
  {
    if n == 0 then [] else LinesCommands(pattern, texts, n - 1) + LineCommands(pattern, texts[n - 1])
  }

  /** `parse_command(bot_name, input)` as a function of its inputs. */
  function Parse(botName: string, input: string): seq<Command> {
    var pattern := Mention(botName);
    var texts := RetainedLines(pattern, input);
    LinesCommands(pattern, texts, |texts|)
  }

  /**
   * `parse_command`: keep the retained lines, then walk the words of each
   * one and push the commands they produce onto one vector.
   */
  method ParseCommand(botName: string, input: string) returns (commands: seq<Command>)
    ensures commands == Parse(botName, input)
  {
    var pattern := Mention(botName);
    var maybeCommands := RetainedLines(pattern, input);
    commands := [];
    for l := 0 to |maybeCommands|
      invariant commands == LinesCommands(pattern, maybeCommands, l)
    {
      commands := PushLineCommands(pattern, Words(maybeCommands[l]), commands);
    }
  }

  /** The inner loop of `parse_command`: the words of one retained line, left to right. */
  method PushLineCommands(pattern: string, pieces: seq<string>, commands0: seq<Command>)
    returns (commands: seq<Command>)
    ensures commands == commands0 + WordsCommands(pattern, pieces, |pieces|)
  {
    commands := commands0;
    for i := 0 to |pieces|
      invariant commands == commands0 + WordsCommands(pattern, pieces, i)
    {
      ghost var sofar := commands;
      assert WordsCommands(pattern, pieces, i + 1) == WordsCommands(pattern, pieces, i) + WordCommands(pattern, pieces, i);
      var word := pieces[i];
      if IsMentionWord(pattern, word) {
        assert WordCommands(pattern, pieces, i) == [];
        continue;
      }
      if IsApproveWord(word) {
        commands := commands + [Approve];
      }
      if IsClaimWord(word) {
        commands := commands + [Assign(ClaimUsers(pieces, i))];
      }
      assert commands == sofar + WordCommands(pattern, pieces, i);
      AppendAssociates(commands0, WordsCommands(pattern, pieces, i), WordCommands(pattern, pieces, i));
    }
  }

  lemma AppendAssociates(a: seq<Command>, b: seq<Command>, c: seq<Command>)
    ensures (a + b) + c == a + (b + c)
  {
  }

  // ---------------------------------------------------------------------------
  // What the parser can produce

  /**
   * The only commands the parser yields: `Approve`, or a claim whose users are
   * its own word split on commas (that is, the word itself, by `ClaimWordUsers`).
   */
  predicate IsParsable(c: Command) {
    c == Approve || c == Assign(Some(Split("c", ','))) || c == Assign(Some(Split("claim", ',')))
  }

  predicate AllParsable(cs: seq<Command>) {
    forall c :: c in cs ==> IsParsable(c)
  }

  lemma AllParsableConcat(a: seq<Command>, b: seq<Command>)
    requires AllParsable(a) && AllParsable(b)
    ensures AllParsable(a + b)
  {
    forall c | c in a + b ensures IsParsable(c) {
      if c !in a {
        assert c in b;
      }
    }
  }

  /** A claim word carries itself as its only user. */
  lemma ClaimWordUsers(word: string)
    requires word == "c" || word == "claim"
    ensures Split(word, ',') == [word]
  {
    SplitWithoutSeparator(word, ',');
  }

  /** One word yields at most one command, and only one of the parsable ones. */
  lemma WordCommandsShape(pattern: string, words: seq<string>, i: nat)
    requires i < |words|
    ensures |WordCommands(pattern, words, i)| <= 1
    ensures AllParsable(WordCommands(pattern, words, i))
  {
  }

  lemma {:induction false} WordsCommandsShape(pattern: string, words: seq<string>, n: nat)
    requires n <= |words|
    ensures |WordsCommands(pattern, words, n)| <= n
    ensures AllParsable(WordsCommands(pattern, words, n))
  {
    if n > 0 {
      WordsCommandsShape(pattern, words, n - 1);
      WordsCommandsStep(pattern, words, n);
    }
  }

  /** The commands of `n` words, given what the first `n - 1` words yield. */
  lemma WordsCommandsStep(pattern: string, words: seq<string>, n: nat)
    requires 0 < n <= |words|
    requires |WordsCommands(pattern, words, n - 1)| <= n - 1 && AllParsable(WordsCommands(pattern, words, n - 1))
    ensures |WordsCommands(pattern, words, n)| <= n
    ensures AllParsable(WordsCommands(pattern, words, n))
  {
    var before, last := WordsCommands(pattern, words, n - 1), WordCommands(pattern, words, n - 1);
    WordCommandsShape(pattern, words, n - 1);
    assert WordsCommands(pattern, words, n) == before + last;
    AllParsableConcat(before, last);
  }

  lemma LineCommandsShape(pattern: string, text: string)
    ensures |LineCommands(pattern, text)| <= |Words(text)|
    ensures AllParsable(LineCommands(pattern, text))
  {
    var words := Words(text);
    WordsCommandsShape(pattern, words, |words|);
  }

  /** Number of words on the first `n` retained lines. */
  function WordTotal(texts: seq<string>, n: nat): nat
    requires n <= |texts|
  {
    if n == 0 then 0 else WordTotal(texts, n - 1) + |Words(texts[n - 1])|
  }

  lemma {:induction false} LinesCommandsShape(pattern: string, texts: seq<string>, n: nat)
    requires n <= |texts|
    ensures |LinesCommands(pattern, texts, n)| <= WordTotal(texts, n)
    ensures AllParsable(LinesCommands(pattern, texts, n))
    decreases n, 1
  {
    if n > 0 {
      LinesCommandsStep(pattern, texts, n);
    }
  }

  /** The commands of `n` retained lines: those of the first `n - 1`, then the last line's. */
  lemma {:induction false} LinesCommandsStep(pattern: string, texts: seq<string>, n: nat)
    requires 0 < n <= |texts|
    ensures |LinesCommands(pattern, texts, n)| <= WordTotal(texts, n)
    ensures AllParsable(LinesCommands(pattern, texts, n))
    decreases n, 0
  {
    LinesCommandsShape(pattern, texts, n - 1);
    var before, last := LinesCommands(pattern, texts, n - 1), LineCommands(pattern, texts[n - 1]);
    LineCommandsShape(pattern, texts[n - 1]);
    ShapedConcat(before, last, WordTotal(texts, n - 1), |Words(texts[n - 1])|);
    assert LinesCommands(pattern, texts, n) == before + last;
  }

  /** Two lists of parsable commands, each within its bound, make one within the sum. */
  lemma ShapedConcat(before: seq<Command>, last: seq<Command>, k: nat, m: nat)
    requires |before| <= k && AllParsable(before)
    requires |last| <= m && AllParsable(last)
    ensures |before + last| <= k + m && AllParsable(before + last)
  {
    AllParsableConcat(before, last);
  }

  /**
   * The parser yields only `Approve` and claims whose `users` is the claim
   * word itself (never `None`, never `Ping`), at most one command per word.
   */
  lemma ParseShape(botName: string, input: string)
    ensures AllParsable(Parse(botName, input))
    ensures var texts := RetainedLines(Mention(botName), input);
      |Parse(botName, input)| <= WordTotal(texts, |texts|)
  {
    var texts := RetainedLines(Mention(botName), input);
    LinesCommandsShape(Mention(botName), texts, |texts|);
  }

  // ---------------------------------------------------------------------------
  // Which lines count, and what is kept of them

  /** A line that does not mention the bot, or is quoted, yields nothing. */
  lemma NonCandidateLineYieldsNothing(pattern: string, line: string)
    requires !IsCandidate(pattern, line)
    ensures LineCommands(pattern, RetainedText(pattern, line)) == []
  {
  }

  lemma {:induction false} BlankLinesYieldNothing(pattern: string, texts: seq<string>, n: nat)
    requires n <= |texts|
    requires forall k :: 0 <= k < n ==> texts[k] == ""
    ensures LinesCommands(pattern, texts, n) == []
  {
    if n > 0 {
      BlankLinesYieldNothing(pattern, texts, n - 1);
    }
  }

  /** A comment that never mentions the bot (the empty comment included) yields no commands. */
  lemma MentionFreeInputYieldsNothing(botName: string, input: string)
    requires !Contains(input, Mention(botName))
    ensures Parse(botName, input) == []
  {
    var pattern := Mention(botName);
    var texts := RetainedLines(pattern, input);
    forall k | 0 <= k < |texts| ensures texts[k] == "" {
      if Contains(Lines(input)[k], pattern) {
        LinesContained(input, pattern, k);
      }
    }
    BlankLinesYieldNothing(pattern, texts, |texts|);
  }

  /**
   * What line `k` of a comment contributes: nothing when it does not address
   * the bot or is quoted; the whole line when it starts with the mention; the
   * line from the mention on when the text before it does not recur there.
   */
  lemma RetainedLineAt(pattern: string, input: string, k: nat)
    requires k < |Lines(input)|
    ensures var line, kept := Lines(input)[k], RetainedLines(pattern, input)[k];
      (!IsCandidate(pattern, line) ==> kept == "")
      && (IsCandidate(pattern, line) && Find(line, pattern) == Some(0) ==> kept == line)
      && (IsCandidate(pattern, line) && Find(line, pattern).value > 0
          && !Contains(line[Find(line, pattern).value..], line[..Find(line, pattern).value])
          ==> kept == line[Find(line, pattern).value..])
  {
    var line := Lines(input)[k];
    if IsCandidate(pattern, line) {
      if Find(line, pattern) == Some(0) {
        MentionAtStartKeepsLine(pattern, line);
      } else {
        RetainedTextAfterPrefix(pattern, line);
      }
    }
  }

  /** With the mention at the start of the line nothing is deleted. */
  lemma MentionAtStartKeepsLine(pattern: string, line: string)
    requires Find(line, pattern) == Some(0) && !IsQuoted(line)
    ensures RetainedText(pattern, line) == line
  {
    assert line[..0] == [];
    ReplaceEmptyByEmpty(line);
  }

  /**
   * With text before the mention, that text goes and the deletion goes on
   * through the rest of the line; the line from the mention on is kept whole
   * only when that text does not occur again after it.
   */
  lemma RetainedTextAfterPrefix(pattern: string, line: string)
    requires IsCandidate(pattern, line) && Find(line, pattern).value > 0
    ensures var cut := Find(line, pattern).value;
      RetainedText(pattern, line) == Replace(line[cut..], line[..cut], "")
    ensures var cut := Find(line, pattern).value;
      !Contains(line[cut..], line[..cut]) ==> RetainedText(pattern, line) == line[cut..]
  {
    var cut := Find(line, pattern).value;
    var before := line[..cut];
    assert before <= line;
    assert line[|before|..] == line[cut..];
    if !Contains(line[cut..], before) {
      ReplaceAbsent(line[cut..], before, "");
    }
  }
}
