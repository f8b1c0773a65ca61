/**
 * Facts about whole comments: how the lines of a comment combine, what a
 * single line yields, and the comments the parser's own test and its quirks
 * are about.
 */
module Comments {
  import opened Wrappers
  import opened Text
  import opened Command

  lemma {:induction false} WordsCommandsPrepend(pattern: string, w: string, words: seq<string>, n: nat)
    requires n <= |words|
    ensures WordsCommands(pattern, [w] + words, n + 1)
      == WordCommands(pattern, [w] + words, 0) + WordsCommands(pattern, words, n)
  {
    if n > 0 {
      WordsCommandsPrepend(pattern, w, words, n - 1);
      assert WordCommands(pattern, [w] + words, n) == WordCommands(pattern, words, n - 1) by {
        assert ([w] + words)[n] == words[n - 1];
        assert Nth([w] + words, n) == Nth(words, n - 1);
      }
    }
  }

  lemma {:induction false} LinesCommandsPrepend(pattern: string, t: string, texts: seq<string>, n: nat)
    requires n <= |texts|
    ensures LinesCommands(pattern, [t] + texts, n + 1)
      == LineCommands(pattern, t) + LinesCommands(pattern, texts, n)
  {
    if n == 0 {
      assert ([t] + texts)[0] == t;
      assert LinesCommands(pattern, [t] + texts, 1) == [] + LineCommands(pattern, t);
    } else {
      var last := texts[n - 1];
      calc {
        LinesCommands(pattern, [t] + texts, n + 1);
      == { assert ([t] + texts)[n] == last; }
        LinesCommands(pattern, [t] + texts, n) + LineCommands(pattern, last);
      == { LinesCommandsPrepend(pattern, t, texts, n - 1); }
        LineCommands(pattern, t) + LinesCommands(pattern, texts, n - 1) + LineCommands(pattern, last);
      ==
        LineCommands(pattern, t) + LinesCommands(pattern, texts, n);
      }
    }
  }

  lemma ParseSingleLine(botName: string, line: string)
    requires line != [] && forall k :: 0 <= k < |line| ==> line[k] != '\n'
    ensures Parse(botName, line) == LineCommands(Mention(botName), RetainedText(Mention(botName), line))
  {
    LinesSingle(line);
    var pattern := Mention(botName);
    assert RetainedLines(pattern, line) == [RetainedText(pattern, line)];
    assert LinesCommands(pattern, [RetainedText(pattern, line)], 1) == [] + LineCommands(pattern, RetainedText(pattern, line));
  }

  lemma RetainedLinesCons(pattern: string, a: string, b: string)
    requires forall k :: 0 <= k < |a| ==> a[k] != '\n'
    requires a == [] || a[|a| - 1] != '\r'
    ensures RetainedLines(pattern, a + "\n" + b) == [RetainedText(pattern, a)] + RetainedLines(pattern, b)
  {
    LinesCons(a, b);
  }

  /** A text without line breaks, empty or not, is parsed as one line. */
  lemma ParseOneLine(botName: string, a: string)
    requires forall k :: 0 <= k < |a| ==> a[k] != '\n'
    ensures Parse(botName, a) == LineCommands(Mention(botName), RetainedText(Mention(botName), a))
  {
    if a != [] {
      ParseSingleLine(botName, a);
    } else {
      var pattern := Mention(botName);
      assert RetainedText(pattern, a) == [] by {
        assert !Contains(a, pattern) by {
          FindNone(a, pattern);
        }
      }
      assert Words([]) == [];
    }
  }

  lemma ParseCons(botName: string, a: string, b: string)
    requires forall k :: 0 <= k < |a| ==> a[k] != '\n'
    requires a == [] || a[|a| - 1] != '\r'
    ensures var pattern := Mention(botName);
      var texts := RetainedLines(pattern, b);
      Parse(botName, a + "\n" + b)
        == LinesCommands(pattern, [RetainedText(pattern, a)] + texts, |texts| + 1)
  {
    RetainedLinesCons(Mention(botName), a, b);
  }

  /**
   * The commands of a comment are those of its first line followed by those
   * of the rest: lines are read in order.
   */
  lemma ParseConcat(botName: string, a: string, b: string)
    requires forall k :: 0 <= k < |a| ==> a[k] != '\n'
    requires a == [] || a[|a| - 1] != '\r'
    ensures Parse(botName, a + "\n" + b) == Parse(botName, a) + Parse(botName, b)
  {
    var pattern := Mention(botName);
    var texts := RetainedLines(pattern, b);
    ParseCons(botName, a, b);
    LinesCommandsPrepend(pattern, RetainedText(pattern, a), texts, |texts|);
    ParseOneLine(botName, a);
  }

  /** A one-line comment that opens with the mention is read whole. */
  lemma ParseLeadingMention(botName: string, rest: string)
    requires forall k :: 0 <= k < |rest| ==> rest[k] != '\n'
    requires forall k :: 0 <= k < |botName| ==> botName[k] != '\n'
    ensures Parse(botName, Mention(botName) + rest) == LineCommands(Mention(botName), Mention(botName) + rest)
  {
    var pattern := Mention(botName);
    var line := pattern + rest;
    assert line[0] == '@';
    assert forall k :: 0 <= k < |line| ==> line[k] != '\n' by {
      forall k | 0 <= k < |line| ensures line[k] != '\n' {
        if k == 0 {
        } else if k < |pattern| {
          assert line[k] == botName[k - 1];
        } else {
          assert line[k] == rest[k - |pattern|];
        }
      }
    }
    ParseSingleLine(botName, line);
    assert OccursAt(line, pattern, 0) by {
      assert pattern <= line;
    }
    FindAt(line, pattern, 0);
    assert TrimStart(line) == line by {
      assert !IsWhitespace(line[0]);
    }
    MentionAtStartKeepsLine(pattern, line);
  }

  /** A bot name without whitespace makes a one-word mention. */
  lemma MentionIsWord(botName: string)
    requires IsWord(botName)
    ensures IsWord(Mention(botName))
    ensures forall k :: 0 <= k < |botName| ==> botName[k] != '\n'
  {
    assert forall k :: 0 <= k < |botName| ==> !IsWhitespace(botName[k]);
  }

  /** The words `<mention> r+` approve once. */
  lemma ApproveLine(pattern: string)
    requires IsWord(pattern) && pattern[0] == '@'
    ensures LineCommands(pattern, pattern + " r+") == [Approve]
  {
    assert IsWord("r+");
    assert pattern + " r+" == pattern + " " + "r+";
    TwoWords(pattern, "r+");
    WordsCommandsPrepend(pattern, pattern, ["r+"], 1);
    assert [pattern] + ["r+"] == [pattern, "r+"];
  }

  /** `@bot r+` on a line of its own approves. */
  lemma MentionApproves(botName: string)
    requires IsWord(botName)
    ensures Parse(botName, Mention(botName) + " r+") == [Approve]
  {
    MentionIsWord(botName);
    ParseLeadingMention(botName, " r+");
    ApproveLine(Mention(botName));
  }

  /** The words `<mention> claim <next>` claim for the user `claim`. */
  lemma ClaimLine(pattern: string, next: string)
    requires IsWord(pattern) && pattern[0] == '@' && IsWord(next)
    requires !IsMentionWord(pattern, next) && !IsApproveWord(next) && !IsClaimWord(next)
    ensures LineCommands(pattern, pattern + " claim " + next) == [Assign(Some(["claim"]))]
  {
    assert IsWord("claim");
    assert pattern + " claim " + next == pattern + " " + ("claim" + " " + next);
    WordThenSpace(pattern, "claim" + " " + next);
    TwoWords("claim", next);
    var ws: seq<string> := ["claim", next];
    assert Words(pattern + " claim " + next) == [pattern] + ws;
    WordsCommandsPrepend(pattern, pattern, ws, 2);
    ClaimWordUsers("claim");
    assert WordCommands(pattern, [pattern] + ws, 0) == [];
    assert WordsCommands(pattern, ws, 1) == [Assign(Some(["claim"]))] by {
      assert WordCommands(pattern, ws, 0) == [Assign(Some(["claim"]))];
    }
    assert WordCommands(pattern, ws, 1) == [];
  }

  /**
   * `@bot claim <next>` yields a claim whose user is the word `claim` itself:
   * the lookahead reads the claim word, not the word after it.
   */
  lemma MentionClaimsItself(botName: string, next: string)
    requires IsWord(botName) && IsWord(next)
    requires forall k :: 0 <= k < |next| ==> next[k] != '@'
    requires !IsApproveWord(next) && !IsClaimWord(next)
    ensures Parse(botName, Mention(botName) + " claim " + next) == [Assign(Some(["claim"]))]
  {
    MentionIsWord(botName);
    assert !IsMentionWord(Mention(botName), next) by {
      assert next[0] != '@';
      assert Mention(botName)[0] == '@';
      assert (Mention(botName) + ":")[0] == '@';
    }
    var rest := " claim " + next;
    assert forall k :: 0 <= k < |rest| ==> rest[k] != '\n' by {
      forall k | 0 <= k < |rest| ensures rest[k] != '\n' {
        if k >= 7 {
          assert rest[k] == next[k - 7];
          assert !IsWhitespace(next[k - 7]);
        }
      }
    }
    ParseLeadingMention(botName, rest);
    assert Mention(botName) + rest == Mention(botName) + " claim " + next;
    ClaimLine(Mention(botName), next);
  }

  /** A line whose first non-blank character is not `>` is not quoted. */
  lemma NotQuoted(line: string, j: nat)
    requires j < |line| && !IsWhitespace(line[j]) && line[j] != '>'
    requires forall k :: 0 <= k < j ==> line[k] != '>'
    ensures !IsQuoted(line)
  {
    var r := TrimStart(line);
    var m := |line| - |r|;
    assert m <= j;
    assert r[0] == line[m];
  }

  /** The first mention follows mention-free text. */
  lemma FindAfter(pattern: string, before: string, rest: string)
    requires pattern != [] && pattern[0] == '@'
    requires forall k :: 0 <= k < |before| ==> before[k] != '@'
    ensures Find(before + pattern + rest, pattern) == Some(|before|)
  {
    var line := before + pattern + rest;
    var cut := |before|;
    assert line[cut..cut + |pattern|] == pattern;
    assert forall k :: 0 <= k < cut ==> line[k] != '@' by {
      forall k | 0 <= k < cut ensures line[k] != '@' {
        assert line[k] == before[k];
      }
    }
    FindAt(line, pattern, cut);
  }

  /** With mention-free, unquoted text before the mention, that text is deleted throughout. */
  lemma RetainedTextAfter(pattern: string, before: string, rest: string)
    requires before != [] && pattern != [] && pattern[0] == '@'
    requires forall k :: 0 <= k < |before| ==> before[k] != '@' && before[k] != '>'
    ensures RetainedText(pattern, before + pattern + rest) == Replace(pattern + rest, before, "")
  {
    var line := before + pattern + rest;
    var cut := |before|;
    FindAfter(pattern, before, rest);
    assert !IsQuoted(line) by {
      assert forall k :: 0 <= k < cut ==> line[k] != '>' by {
        forall k | 0 <= k < cut ensures line[k] != '>' {
          assert line[k] == before[k];
        }
      }
      assert line[cut] == '@';
      NotQuoted(line, cut);
    }
    RetainedTextAfterPrefix(pattern, line);
    assert line[..cut] == before;
    assert line[cut..] == pattern + rest;
  }

  /**
   * A one-line comment with text before the mention: that text is deleted
   * wherever it occurs in the line.
   */
  lemma ParseMentionAfter(botName: string, before: string, rest: string)
    requires before != []
    requires forall k :: 0 <= k < |before| ==> before[k] != '\n' && before[k] != '@' && before[k] != '>'
    requires forall k :: 0 <= k < |botName| ==> botName[k] != '\n'
    requires forall k :: 0 <= k < |rest| ==> rest[k] != '\n'
    ensures Parse(botName, before + Mention(botName) + rest)
      == LineCommands(Mention(botName), Replace(Mention(botName) + rest, before, ""))
  {
    var pattern := Mention(botName);
    assert forall k :: 0 <= k < |pattern| ==> pattern[k] != '\n' by {
      forall k | 0 <= k < |pattern| ensures pattern[k] != '\n' {
        if k > 0 {
          assert pattern[k] == botName[k - 1];
        }
      }
    }
    NoNewline3(before, pattern, rest);
    RetainedTextAfter(pattern, before, rest);
    ParseSingleLine(botName, before + pattern + rest);
  }

  lemma MentionThenR(pattern: string)
    requires IsWord(pattern) && pattern[0] == '@'
    ensures LineCommands(pattern, pattern + " r") == []
  {
    assert IsWord("r");
    assert pattern + " r" == pattern + " " + "r";
    TwoWords(pattern, "r");
    var ws: seq<string> := ["r"];
    WordsCommandsPrepend(pattern, pattern, ws, 1);
    assert [pattern] + ws == [pattern, "r"];
    assert !IsMentionWord(pattern, "r") by {
      assert "r"[0] == 'r';
    }
    assert WordCommands(pattern, ws, 0) == [];
  }

  /**
   * The deletion of the text before the mention is a replace over the whole
   * line: `+ @bot r+ ` loses the `+ ` after `r` as well and approves nothing.
   */
  lemma PrefixDeletedAfterMention(botName: string)
    requires IsWord(botName)
    requires forall k :: 0 <= k < |botName| ==> botName[k] != '+'
    ensures Parse(botName, "+ " + Mention(botName) + " r+ ") == []
  {
    var pattern := Mention(botName);
    MentionIsWord(botName);
    assert forall k :: 0 <= k < |pattern| ==> pattern[k] != '+' by {
      forall k | 0 <= k < |pattern| ensures pattern[k] != '+' {
        if 0 < k {
          assert pattern[k] == botName[k - 1];
        }
      }
    }
    assert Replace(pattern + " r+ ", "+ ", "") == pattern + " r" by {
      assert pattern + " r+ " == (pattern + " r") + "+ ";
      assert forall k :: 0 <= k < |pattern + " r"| ==> (pattern + " r")[k] != '+' by {
        forall k | 0 <= k < |pattern + " r"| ensures (pattern + " r")[k] != '+' {
          if k < |pattern| {
            assert (pattern + " r")[k] == pattern[k];
          }
        }
      }
      DeleteAtEnd(pattern + " r", "+ ");
    }
    ParseMentionAfter(botName, "+ ", " r+ ");
    MentionThenR(pattern);
  }

  /**
   * A line `<text> @bot r+` whose text before the mention is mention-free,
   * unquoted and longer than what follows it approves once.
   */
  lemma MentionAfterTextApproves(botName: string, before: string)
    requires IsWord(botName)
    requires forall k :: 0 <= k < |before| ==> before[k] != '\n' && before[k] != '@' && before[k] != '>'
    requires |before| > |botName| + 4
    ensures Parse(botName, before + Mention(botName) + " r+") == [Approve]
  {
    var pattern := Mention(botName);
    MentionIsWord(botName);
    assert forall k :: 0 <= k < |" r+"| ==> " r+"[k] != '\n';
    ParseMentionAfter(botName, before, " r+");
    assert Replace(pattern + " r+", before, "") == pattern + " r+" by {
      assert !Contains(pattern + " r+", before) by {
        assert |before| > |pattern + " r+"|;
      }
      ReplaceAbsent(pattern + " r+", before, "");
    }
    ApproveLine(pattern);
  }

  /**
   * A comment whose first line does not mention the bot and whose second
   * line is `<text> @bot r+`, as in `MentionAfterTextApproves`, approves once.
   */
  lemma SecondLineApproves(botName: string, first: string, before: string)
    requires IsWord(botName)
    requires forall k :: 0 <= k < |first| ==> first[k] != '\n' && first[k] != '@'
    requires first == [] || first[|first| - 1] != '\r'
    requires forall k :: 0 <= k < |before| ==> before[k] != '\n' && before[k] != '@' && before[k] != '>'
    requires |before| > |botName| + 4
    ensures Parse(botName, first + "\n" + (before + Mention(botName) + " r+")) == [Approve]
  {
    var b := before + Mention(botName) + " r+";
    assert Parse(botName, first) == [] by {
      FindNone(first, Mention(botName));
      MentionFreeInputYieldsNothing(botName, first);
    }
    MentionAfterTextApproves(botName, before);
    ParseConcat(botName, first, b);
  }

  /** A quoted line is ignored even when it addresses the bot. */
  lemma QuotedMentionIgnored(botName: string, rest: string)
    requires forall k :: 0 <= k < |botName| ==> botName[k] != '\n'
    requires forall k :: 0 <= k < |rest| ==> rest[k] != '\n'
    ensures Parse(botName, ">" + Mention(botName) + rest) == []
  {
    var line := ">" + Mention(botName) + rest;
    assert forall k :: 0 <= k < |Mention(botName)| ==> Mention(botName)[k] != '\n' by {
      forall k | 0 <= k < |Mention(botName)| ensures Mention(botName)[k] != '\n' {
        if k > 0 {
          assert Mention(botName)[k] == botName[k - 1];
        }
      }
    }
    NoNewline3(">", Mention(botName), rest);
    assert IsQuoted(line) by {
      var r := TrimStart(line);
      assert !IsWhitespace(line[0]);
      assert |line| - |r| == 0;
    }
    ParseSingleLine(botName, line);
  }
}
