/**
 * The string operations of Rust's `str` that the bot relies on, written out
 * over `seq<char>`: `find`, `contains`, `starts_with`, `trim_start`,
 * `replace`, `lines`, `split_whitespace` and `split` on one character.
 */
module Text {
  import opened Wrappers

  /** Rust's `char::is_whitespace`: the Unicode White_Space property. */
  predicate IsWhitespace(c: char) {
    var n := c as int;
    (9 <= n <= 13) || n == 0x20 || n == 0x85 || n == 0xA0 || n == 0x1680
    || (0x2000 <= n <= 0x200A) || n == 0x2028 || n == 0x2029 || n == 0x202F
    || n == 0x205F || n == 0x3000
  }

  /** `p` occurs in `s` starting at index `k`. */
  predicate OccursAt(s: string, p: string, k: nat) {
    k + |p| <= |s| && s[k..k + |p|] == p
  }

  lemma OccursAtShift(s: string, p: string, k: nat)
    requires s != []
    ensures OccursAt(s[1..], p, k) <==> OccursAt(s, p, k + 1)
  {
    if k + 1 + |p| <= |s| {
      assert s[1..][k..k + |p|] == s[k + 1..k + 1 + |p|];
    }
  }

  /** `str::find`: the first index at which `p` occurs in `s`. */
  function Find(s: string, p: string): (r: Option<nat>)
    ensures r.Some? ==> OccursAt(s, p, r.value)
    ensures r.Some? ==> forall j :: 0 <= j < r.value ==> !OccursAt(s, p, j)
    ensures r.None? ==> forall j :: 0 <= j <= |s| ==> !OccursAt(s, p, j)
    decreases |s|
  {
    if p <= s then Some(0)
    else if s == [] then None
    else
      var rest := Find(s[1..], p);
      FindStep(s, p, rest);
      match rest
      case Some(k) => Some(k + 1)
      case None => None
  }

  lemma FindStep(s: string, p: string, rest: Option<nat>)
    requires s != [] && !(p <= s)
    requires rest.Some? ==> OccursAt(s[1..], p, rest.value)
    requires rest.Some? ==> forall j :: 0 <= j < rest.value ==> !OccursAt(s[1..], p, j)
    requires rest.None? ==> forall j :: 0 <= j <= |s[1..]| ==> !OccursAt(s[1..], p, j)
    ensures rest.Some? ==> OccursAt(s, p, rest.value + 1)
    ensures rest.Some? ==> forall j :: 0 <= j < rest.value + 1 ==> !OccursAt(s, p, j)
    ensures rest.None? ==> forall j :: 0 <= j <= |s| ==> !OccursAt(s, p, j)
  {
    assert !OccursAt(s, p, 0);
    forall j | 1 <= j <= |s|
      ensures OccursAt(s, p, j) <==> OccursAt(s[1..], p, j - 1)
    {
      OccursAtShift(s, p, j - 1);
    }
  }

  /** `str::contains`. */
  predicate Contains(s: string, p: string) {
    Find(s, p).Some?
  }

  lemma Subslice(s: string, a: nat, b: nat, i: nat, j: nat)
    requires a <= b <= |s| && i <= j <= b - a
    ensures s[a..b][i..j] == s[a + i..a + j]
  {
    forall t | 0 <= t < j - i
      ensures s[a..b][i..j][t] == s[a + i..a + j][t]
    {
      assert s[a..b][i..j][t] == s[a + i + t];
    }
  }

  /** Whatever occurs in a slice of `s` occurs in `s`. */
  lemma {:induction false} ContainsSlice(s: string, a: nat, b: nat, p: string)
    requires a <= b <= |s|
    requires Contains(s[a..b], p)
    ensures Contains(s, p)
  {
    var k := Find(s[a..b], p).value;
    Subslice(s, a, b, k, k + |p|);
    assert OccursAt(s, p, a + k);
  }

  /** An occurrence with no earlier copy of the pattern's first character is the one `find` returns. */
  lemma FindAt(s: string, p: string, k: nat)
    requires p != [] && OccursAt(s, p, k)
    requires forall j :: 0 <= j < k ==> s[j] != p[0]
    ensures Find(s, p) == Some(k)
  {
    FindFirstChar(s, p);
  }

  /** A string without the pattern's first character does not contain the pattern. */
  lemma FindNone(s: string, p: string)
    requires p != []
    requires forall j :: 0 <= j < |s| ==> s[j] != p[0]
    ensures Find(s, p) == None
  {
    FindFirstChar(s, p);
  }

  /** Where `find` reports a match, the pattern's first character stands. */
  lemma FindFirstChar(s: string, p: string)
    requires p != []
    ensures Find(s, p).Some? ==> Find(s, p).value < |s| && s[Find(s, p).value] == p[0]
  {
    if Find(s, p).Some? {
      var i := Find(s, p).value;
      assert s[i..i + |p|][0] == s[i];
    }
  }

  /** `str::trim_start`. */
  function TrimStart(s: string): (r: string)
    ensures |r| <= |s| && r == s[|s| - |r|..]
    ensures r != [] ==> !IsWhitespace(r[0])
    ensures forall k :: 0 <= k < |s| - |r| ==> IsWhitespace(s[k])
    decreases |s|
  {
    if s != [] && IsWhitespace(s[0]) then TrimStart(s[1..]) else s
  }

  /**
   * `str::replace(from, to)`: every non-overlapping occurrence of `from`,
   * taken left to right, becomes `to`. An empty `from` matches at every
   * character boundary, so `to` is inserted before each character and at the end.
   */
  function Replace(s: string, from: string, to: string): string
    decreases |s|
  {
    if from == [] then InsertEverywhere(s, to)
    else if from <= s then to + Replace(s[|from|..], from, to)
    else if s == [] then []
    else [s[0]] + Replace(s[1..], from, to)
  }

  function InsertEverywhere(s: string, to: string): string {
    if s == [] then to else to + [s[0]] + InsertEverywhere(s[1..], to)
  }

  /** Replacing the empty string by the empty string changes nothing. */
  lemma {:induction false} ReplaceEmptyByEmpty(s: string)
    ensures Replace(s, [], []) == s
  {
    if s != [] {
      ReplaceEmptyByEmpty(s[1..]);
      assert s == [s[0]] + s[1..];
    }
  }

  /** With no occurrence of a non-empty `from`, `replace` returns its input. */
  lemma {:induction false} ReplaceAbsent(s: string, from: string, to: string)
    requires from != [] && !Contains(s, from)
    ensures Replace(s, from, to) == s
    decreases |s|
  {
    assert !OccursAt(s, from, 0);
    if s != [] {
      forall j | 0 <= j <= |s[1..]| ensures !OccursAt(s[1..], from, j) {
        OccursAtShift(s, from, j);
      }
      ReplaceAbsent(s[1..], from, to);
      assert s == [s[0]] + s[1..];
    }
  }

  /** Replacing a pattern by itself changes nothing. */
  lemma {:induction false} ReplaceBySelf(s: string, p: string)
    requires p != []
    ensures Replace(s, p, p) == s
    decreases |s|
  {
    if p <= s {
      ReplaceBySelf(s[|p|..], p);
      assert s == p + s[|p|..];
    } else if s != [] {
      ReplaceBySelf(s[1..], p);
      assert s == [s[0]] + s[1..];
    }
  }

  /** A line with one trailing `\r` removed, as `str::lines` does before each `\n`. */
  function StripCr(line: string): string {
    if line != [] && line[|line| - 1] == '\r' then line[..|line| - 1] else line
  }

  /** Index of the first `\n` in `s`, or `|s|` when there is none. */
  function LineEnd(s: string): (n: nat)
    ensures n <= |s|
    decreases |s|
  {
    if s == [] || s[0] == '\n' then 0 else 1 + LineEnd(s[1..])
  }

  /**
   * `str::lines`: split on `\n`, drop one `\r` before each `\n`, and yield no
   * empty last line after a final `\n`.
   */
  function Lines(s: string): (r: seq<string>)
    ensures |r| <= |s|
    ensures s != [] ==> |r| >= 1
    decreases |s|
  {
    if s == [] then []
    else
      var n := LineEnd(s);
      if n < |s| then [StripCr(s[..n])] + Lines(s[n + 1..]) else [s]
  }

  /** The end of a first line without line breaks. */
  lemma {:induction false} LineEndOf(a: string, b: string)
    requires forall k :: 0 <= k < |a| ==> a[k] != '\n'
    requires b == [] || b[0] == '\n'
    ensures LineEnd(a + b) == |a|
    decreases |a|
  {
    if a != [] {
      assert (a + b)[1..] == a[1..] + b;
      LineEndOf(a[1..], b);
    } else {
      assert a + b == b;
    }
  }

  /** A first line without line breaks, then a `\n`, then the rest. */
  lemma LinesCons(a: string, b: string)
    requires forall k :: 0 <= k < |a| ==> a[k] != '\n'
    requires a == [] || a[|a| - 1] != '\r'
    ensures Lines(a + "\n" + b) == [a] + Lines(b)
  {
    var s := a + "\n" + b;
    assert LineEnd(s) == |a| by {
      assert s == a + ("\n" + b);
      LineEndOf(a, "\n" + b);
    }
    assert s[..|a|] == a;
    assert s[|a| + 1..] == b;
    assert StripCr(a) == a;
  }

  /** A first line without line breaks, then `\r\n`, then the rest: the `\r` is dropped. */
  lemma LinesConsCrLf(a: string, b: string)
    requires forall k :: 0 <= k < |a| ==> a[k] != '\n'
    ensures Lines(a + "\r\n" + b) == [a] + Lines(b)
  {
    var line := a + "\r";
    var s := a + "\r\n" + b;
    assert s == line + ("\n" + b);
    assert LineEnd(s) == |line| by {
      forall k | 0 <= k < |line| ensures line[k] != '\n' {
        if k < |a| {
          assert line[k] == a[k];
        }
      }
      LineEndOf(line, "\n" + b);
    }
    assert s[..|line|] == line;
    assert s[|line| + 1..] == b;
    assert StripCr(line) == a;
  }

  /** A non-empty string without line breaks is one line. */
  lemma LinesSingle(a: string)
    requires a != [] && forall k :: 0 <= k < |a| ==> a[k] != '\n'
    ensures Lines(a) == [a]
  {
    assert LineEnd(a) == |a| by {
      assert a + [] == a;
      LineEndOf(a, []);
    }
    assert a[..|a|] == a;
  }

  /** The first line is a prefix of the input. */
  lemma FirstLineIsPrefix(s: string) returns (b: nat)
    requires s != []
    ensures b <= |s| && Lines(s)[0] == s[..b]
  {
    var n := LineEnd(s);
    if n < |s| {
      var line := s[..n];
      b := if line != [] && line[|line| - 1] == '\r' then n - 1 else n;
      assert StripCr(line) == s[..b];
    } else {
      b := |s|;
      assert s[..b] == s;
    }
  }

  lemma SliceOfSlice(s: string, i: nat, a: nat, b: nat)
    requires i <= |s| && a <= b <= |s| - i
    ensures s[i..][a..b] == s[i + a..i + b]
  {
  }

  /** The lines after the first are the lines of what follows the first `\n`. */
  lemma LaterLine(s: string, k: nat)
    requires 0 < k < |Lines(s)|
    ensures LineEnd(s) < |s| && Lines(s)[k] == Lines(s[LineEnd(s) + 1..])[k - 1]
  {
    LinesUnfold(s);
  }

  /** One step of `lines`: the first line, then the lines after its `\n`. */
  lemma LinesUnfold(s: string)
    requires s != []
    ensures LineEnd(s) < |s| ==> Lines(s) == [StripCr(s[..LineEnd(s)])] + Lines(s[LineEnd(s) + 1..])
    ensures LineEnd(s) >= |s| ==> Lines(s) == [s]
  {
  }

  /** Every line is a slice of the input. */
  lemma {:induction false} LineIsSlice(s: string, k: nat) returns (a: nat, b: nat)
    requires k < |Lines(s)|
    ensures a <= b <= |s| && Lines(s)[k] == s[a..b]
    decreases |s|
  {
    if k == 0 {
      a := 0;
      b := FirstLineIsPrefix(s);
    } else {
      var n := LineEnd(s);
      var rest := s[n + 1..];
      LaterLine(s, k);
      var a', b' := LineIsSlice(rest, k - 1);
      a, b := n + 1 + a', n + 1 + b';
      SliceOfSlice(s, n + 1, a', b');
    }
  }

  /** A line can only contain what the input contains. */
  lemma LinesContained(s: string, p: string, k: nat)
    requires k < |Lines(s)| && Contains(Lines(s)[k], p)
    ensures Contains(s, p)
  {
    var a, b := LineIsSlice(s, k);
    ContainsSlice(s, a, b, p);
  }

  /** Length of the run of non-whitespace characters that starts `s`. */
  function WordEnd(s: string): (n: nat)
    ensures n <= |s|
    ensures forall k :: 0 <= k < n ==> !IsWhitespace(s[k])
    ensures n < |s| ==> IsWhitespace(s[n])
    decreases |s|
  {
    if s == [] || IsWhitespace(s[0]) then 0 else 1 + WordEnd(s[1..])
  }

  predicate IsWord(w: string) {
    w != [] && forall k :: 0 <= k < |w| ==> !IsWhitespace(w[k])
  }

  /** `str::split_whitespace`: the maximal runs of non-whitespace characters, in order. */
  function Words(s: string): (ws: seq<string>)
    ensures |ws| <= |s|
    decreases |s|
  {
    if s == [] then []
    else if IsWhitespace(s[0]) then Words(s[1..])
    else
      var n := WordEnd(s);
      [s[..n]] + Words(s[n..])
  }

  /** Every word is non-empty and free of whitespace. */
  lemma {:induction false} WordsAreWords(s: string)
    ensures forall i :: 0 <= i < |Words(s)| ==> IsWord(Words(s)[i])
    decreases |s|
  {
    if s == [] {
    } else if IsWhitespace(s[0]) {
      WordsAreWords(s[1..]);
    } else {
      var n := WordEnd(s);
      WordsAreWords(s[n..]);
      assert Words(s) == [s[..n]] + Words(s[n..]);
    }
  }

  /** A word followed by whitespace or by nothing is the first word. */
  lemma WordsCons(w: string, rest: string)
    requires IsWord(w) && (rest == [] || IsWhitespace(rest[0]))
    ensures Words(w + rest) == [w] + Words(rest)
  {
    var s := w + rest;
    assert s[0] == w[0];
    WordEndOfWord(w, rest);
    assert s[..|w|] == w && s[|w|..] == rest;
  }

  lemma {:induction false} WordEndOfWord(w: string, rest: string)
    requires forall k :: 0 <= k < |w| ==> !IsWhitespace(w[k])
    requires rest == [] || IsWhitespace(rest[0])
    ensures WordEnd(w + rest) == |w|
    decreases |w|
  {
    if w != [] {
      assert (w + rest)[1..] == w[1..] + rest;
      WordEndOfWord(w[1..], rest);
    } else {
      assert w + rest == rest;
    }
  }

  /** Leading whitespace is skipped. */
  lemma WordsSkip(c: char, rest: string)
    requires IsWhitespace(c)
    ensures Words([c] + rest) == Words(rest)
  {
    assert ([c] + rest)[1..] == rest;
  }

  /** Index of the first `sep` in `s`, or `|s|` when there is none. */
  function SepIndex(s: string, sep: char): (n: nat)
    ensures n <= |s|
    ensures n < |s| ==> s[n] == sep
    decreases |s|
  {
    if s == [] || s[0] == sep then 0 else 1 + SepIndex(s[1..], sep)
  }

  /** No separator comes before `SepIndex`. */
  lemma {:induction false} SepIndexFirst(s: string, sep: char)
    ensures forall k :: 0 <= k < SepIndex(s, sep) ==> s[k] != sep
    decreases |s|
  {
    if s != [] && s[0] != sep {
      SepIndexFirst(s[1..], sep);
      forall k | 0 < k < SepIndex(s, sep) ensures s[k] != sep {
        assert s[k] == s[1..][k - 1];
      }
    }
  }

  /** A separator-free head followed by a separator or the end: the index is the head's length. */
  lemma {:induction false} SepIndexOf(a: string, b: string, sep: char)
    requires forall k :: 0 <= k < |a| ==> a[k] != sep
    requires b == [] || b[0] == sep
    ensures SepIndex(a + b, sep) == |a|
    decreases |a|
  {
    if a != [] {
      assert (a + b)[1..] == a[1..] + b;
      SepIndexOf(a[1..], b, sep);
    } else {
      assert a + b == b;
    }
  }

  /**
   * `str::split` on a one-character separator: the text up to the first
   * separator, then the pieces of the rest; always at least one piece.
   */
  function Split(s: string, sep: char): (r: seq<string>)
    ensures |r| >= 1
    decreases |s|
  {
    var n := SepIndex(s, sep);
    if n == |s| then [s] else [s[..n]] + Split(s[n + 1..], sep)
  }

  /** `[T]::join` with a one-character separator. */
  function Join(parts: seq<string>, sep: char): string {
    if parts == [] then []
    else if |parts| == 1 then parts[0]
    else parts[0] + [sep] + Join(parts[1..], sep)
  }

  /** Joining a first piece onto a non-empty rest puts the separator between them. */
  lemma JoinCons(first: string, rest: seq<string>, sep: char)
    requires rest != []
    ensures Join([first] + rest, sep) == first + [sep] + Join(rest, sep)
  {
    var parts := [first] + rest;
    assert |parts| > 1 && parts[0] == first && parts[1..] == rest;
  }

  /** Joining the pieces back with the separator restores the input. */
  lemma {:induction false} JoinSplit(s: string, sep: char)
    ensures Join(Split(s, sep), sep) == s
    decreases |s|
  {
    var n := SepIndex(s, sep);
    if n < |s| {
      var rest := Split(s[n + 1..], sep);
      assert Split(s, sep) == [s[..n]] + rest;
      calc {
        Join([s[..n]] + rest, sep);
        { JoinCons(s[..n], rest, sep); }
        s[..n] + [sep] + Join(rest, sep);
        { JoinSplit(s[n + 1..], sep); }
        s[..n] + [sep] + s[n + 1..];
        { assert s[n] == sep; }
        s;
      }
    }
  }

  /** A string without the separator splits into itself alone. */
  lemma SplitWithoutSeparator(s: string, sep: char)
    requires forall k :: 0 <= k < |s| ==> s[k] != sep
    ensures Split(s, sep) == [s]
  {
    SepIndexOf(s, [], sep);
    assert s + [] == s;
  }

  /**
   * The first piece is the text before the first separator; when there is a
   * separator, the remaining pieces are those of the text after it.
   */
  lemma SplitFirst(s: string, sep: char)
    ensures var first := Split(s, sep)[0];
      first <= s && forall k :: 0 <= k < |first| ==> first[k] != sep
    ensures |Split(s, sep)| == 1 <==> forall k :: 0 <= k < |s| ==> s[k] != sep
    ensures var n := |Split(s, sep)[0]|;
      |Split(s, sep)| > 1 ==> n < |s| && s[n] == sep && Split(s, sep)[1..] == Split(s[n + 1..], sep)
  {
    SepIndexFirst(s, sep);
    var n := SepIndex(s, sep);
    if n < |s| {
      assert Split(s, sep) == [s[..n]] + Split(s[n + 1..], sep);
      assert s[..n] <= s;
    }
  }

  /** With two pieces or more, the input starts with the first, the separator and the second. */
  lemma SplitSecondPrefix(s: string, sep: char)
    requires |Split(s, sep)| >= 2
    ensures var parts := Split(s, sep);
      parts[0] + [sep] + parts[1] <= s
  {
    var parts := Split(s, sep);
    JoinSplit(s, sep);
    assert parts == [parts[0]] + parts[1..];
    JoinCons(parts[0], parts[1..], sep);
    JoinHead(parts[1..], sep);
    PrefixAfter(parts[0] + [sep], parts[1], Join(parts[1..], sep));
  }

  /** A join starts with its first piece. */
  lemma JoinHead(parts: seq<string>, sep: char)
    requires parts != []
    ensures parts[0] <= Join(parts, sep)
  {
    if |parts| > 1 {
      assert Join(parts, sep) == parts[0] + ([sep] + Join(parts[1..], sep));
    }
  }

  /** A common head keeps a prefix a prefix. */
  lemma PrefixAfter(head: string, a: string, b: string)
    requires a <= b
    ensures head + a <= head + b
  {
    assert (head + b)[..|head + a|] == head + b[..|a|];
  }

  /** The second piece has no separator either. */
  lemma SplitSecondFree(s: string, sep: char)
    requires |Split(s, sep)| >= 2
    ensures var second := Split(s, sep)[1];
      forall k :: 0 <= k < |second| ==> second[k] != sep
  {
    var n := SepIndex(s, sep);
    assert n < |s|;
    var rest := s[n + 1..];
    assert Split(s, sep) == [s[..n]] + Split(rest, sep);
    SplitHead(rest, sep);
    SepIndexFirst(rest, sep);
  }

  /** The first piece is the text up to the first separator. */
  lemma SplitHead(s: string, sep: char)
    ensures Split(s, sep)[0] == s[..SepIndex(s, sep)]
  {
    assert s[..|s|] == s;
  }

  /** A piece without the separator, then the separator, splits off as the first piece. */
  lemma SplitCons(a: string, b: string, sep: char)
    requires forall k :: 0 <= k < |a| ==> a[k] != sep
    ensures Split(a + [sep] + b, sep) == [a] + Split(b, sep)
  {
    var s := a + [sep] + b;
    assert s == a + ([sep] + b);
    SepIndexOf(a, [sep] + b, sep);
    assert s[..|a|] == a;
    assert s[|a| + 1..] == b;
  }

  /** Two words separated by one space. */
  lemma TwoWords(v: string, w: string)
    requires IsWord(v) && IsWord(w)
    ensures Words(v + " " + w) == [v, w]
  {
    assert v + " " + w == v + ([' '] + w);
    WordsCons(v, [' '] + w);
    WordsSkip(' ', w);
    assert w + [] == w;
    WordsCons(w, []);
  }

  /** A word, one space, then the rest: the word comes first. */
  lemma WordThenSpace(v: string, rest: string)
    requires IsWord(v)
    ensures Words(v + " " + rest) == [v] + Words(rest)
  {
    assert v + " " + rest == v + ([' '] + rest);
    WordsCons(v, [' '] + rest);
    WordsSkip(' ', rest);
  }

  lemma {:induction false} ReplaceSkip(x: string, y: string, from: string, to: string)
    requires from != [] && forall k :: 0 <= k < |x| ==> x[k] != from[0]
    ensures Replace(x + y, from, to) == x + Replace(y, from, to)
    decreases |x|
  {
    var r := Replace(y, from, to);
    if x != [] {
      var s := x + y;
      assert Replace(s, from, to) == [x[0]] + Replace(x[1..] + y, from, to) by {
        assert s[0] == x[0];
        assert !(from <= s);
        assert s[1..] == x[1..] + y;
      }
      assert Replace(x[1..] + y, from, to) == x[1..] + r by {
        ReplaceSkip(x[1..], y, from, to);
      }
      calc {
        [x[0]] + (x[1..] + r);
        ([x[0]] + x[1..]) + r;
        { assert [x[0]] + x[1..] == x; }
        x + r;
      }
    } else {
      assert x + y == y && x + r == r;
    }
  }

  /**
   * An occurrence preceded by text without the pattern's first character is
   * the first one replaced; the scan then resumes right after it.
   */
  lemma ReplaceAfterFree(head: string, rest: string, p: string, to: string)
    requires p != [] && p[0] !in head
    ensures Replace(head + p + rest, p, to) == head + to + Replace(rest, p, to)
  {
    assert head + p + rest == head + (p + rest);
    ReplaceSkip(head, p + rest, p, to);
    assert p <= p + rest && (p + rest)[|p|..] == rest;
    assert Replace(p + rest, p, to) == to + Replace(rest, p, to);
    assert head + (to + Replace(rest, p, to)) == head + to + Replace(rest, p, to);
  }

  /** One occurrence between texts without the pattern's first character is the only one replaced. */
  lemma ReplaceFramed(head: string, tail: string, p: string, to: string)
    requires p != [] && p[0] !in head && p[0] !in tail
    ensures Replace(head + p + tail, p, to) == head + to + tail
  {
    ReplaceAfterFree(head, tail, p, to);
    assert tail + [] == tail;
    ReplaceSkip(tail, [], p, to);
    assert Replace(tail, p, to) == tail;
  }

  /** Three strings without line breaks make one line. */
  lemma NoNewline3(a: string, b: string, c: string)
    requires forall k :: 0 <= k < |a| ==> a[k] != '\n'
    requires forall k :: 0 <= k < |b| ==> b[k] != '\n'
    requires forall k :: 0 <= k < |c| ==> c[k] != '\n'
    ensures forall k :: 0 <= k < |a + b + c| ==> (a + b + c)[k] != '\n'
  {
    forall k | 0 <= k < |a + b + c| ensures (a + b + c)[k] != '\n' {
      if k < |a| {
        assert (a + b + c)[k] == a[k];
      } else if k < |a| + |b| {
        assert (a + b + c)[k] == b[k - |a|];
      } else {
        assert (a + b + c)[k] == c[k - |a| - |b|];
      }
    }
  }

  /** Deleting a pattern that occurs only at the end of the text. */
  lemma DeleteAtEnd(x: string, p: string)
    requires p != [] && forall k :: 0 <= k < |x| ==> x[k] != p[0]
    ensures Replace(x + p, p, "") == x
  {
    ReplaceSkip(x, p, p, "");
    assert p <= p && p[|p|..] == [];
    assert Replace(p, p, "") == "" + Replace([], p, "");
    assert x + "" == x;
  }
}
