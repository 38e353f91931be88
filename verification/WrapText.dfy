/**
 Wrapping text on white space: the greedy loop, the lines it makes, and why no
 other way of breaking the same words needs fewer lines.
 */
module WrapText {
  type Line = seq<string>

  predicate IsSpace(c: char) {
    c in " \t\n\r" || c == 11 as char || c == 12 as char
  }

  predicate EndsWord(s: string) {
    s != "" && !IsSpace(s[|s| - 1])
  }

  /** strings.Fields(): the maximal runs of characters that are not white space. */
  function Fields(s: string): (r: seq<string>)
    ensures EndsWord(s) ==> r != []
  {
    if s == "" then []
    else
      var before, c := s[..|s| - 1], s[|s| - 1];
      if IsSpace(c) then Fields(before)
      else if !EndsWord(before) then Fields(before) + [[c]]
      else var words := Fields(before); words[..|words| - 1] + [words[|words| - 1] + [c]]
  }

  /** The words of a line with single blanks between them. */
  function Joined(line: Line): string {
    if line == [] then ""
    else if |line| == 1 then line[0]
    else Joined(line[..|line| - 1]) + " " + line[|line| - 1]
  }

  function Layout(lines: seq<Line>, indent: string): string {
    if lines == [] then ""
    else (if |lines| == 1 then "" else Layout(lines[..|lines| - 1], indent) + "\n") + indent + Joined(lines[|lines| - 1])
  }

  /** One more word goes on the last line if it fits there, and else starts a line. */
  function WithWord(lines: seq<Line>, word: string, width: int): seq<Line> {
    if lines == [] then [[word]]
    else
      var last := lines[|lines| - 1];
      if |Joined(last)| + |word| + 1 > width then lines + [[word]] else lines[..|lines| - 1] + [last + [word]]
  }

  function Lines(words: seq<string>, width: int): seq<Line> {
    if words == [] then [] else WithWord(Lines(words[..|words| - 1], width), words[|words| - 1], width)
  }

  lemma JoinedMore(line: Line, word: string)
    requires line != []
    ensures Joined(line + [word]) == Joined(line) + " " + word
  {
  }

  /** What one more word does to the text and to the width of its last line. */
  lemma LayoutMore(lines: seq<Line>, word: string, width: int, indent: string)
    requires lines != [] && lines[|lines| - 1] != []
    ensures var more := WithWord(lines, word, width); var col := |Joined(lines[|lines| - 1])|;
      && more != [] && more[|more| - 1] != []
      && if col + |word| + 1 > width then
           Layout(more, indent) == Layout(lines, indent) + "\n" + indent + word && |Joined(more[|more| - 1])| == |word|
         else
           Layout(more, indent) == Layout(lines, indent) + " " + word && |Joined(more[|more| - 1])| == col + 1 + |word|
  {
    var others, last := lines[..|lines| - 1], lines[|lines| - 1];
    JoinedMore(last, word);
    var more := WithWord(lines, word, width);
    if |Joined(last)| + |word| + 1 > width {
      assert more[..|lines|] == lines;
    } else {
      assert more[..|others|] == others;
      var before := if others == [] then indent else Layout(others, indent) + "\n" + indent;
      assert before + Joined(last) + " " + word == before + Joined(last + [word]);
    }
  }

  lemma LinesMore(words: seq<string>, i: nat, width: int)
    requires i < |words|
    ensures Lines(words[..i + 1], width) == WithWord(Lines(words[..i], width), words[i], width)
  {
    assert words[..i + 1][..i] == words[..i];
  }

  method WrapText(text: string, width: int, indent: string) returns (result: string)
    ensures result == Layout(Lines(Fields(text), width), indent)
  {
    var words := Fields(text);
    if |words| == 0 { return ""; }
    result := indent + words[0];
    var col := |words[0]|;
    ghost var lines := [[words[0]]];
    LinesMore(words, 0, width);
    hide Lines; hide Fields;
    for i := 1 to |words|
      invariant lines == Lines(words[..i], width) && lines != [] && lines[|lines| - 1] != []
      invariant result == Layout(lines, indent) && col == |Joined(lines[|lines| - 1])|
    {
      hide Layout; hide Joined; hide WithWord;
      var word := words[i];
      LinesMore(words, i, width);
      LayoutMore(lines, word, width, indent);
      lines := WithWord(lines, word, width);
      if col + |word| + 1 > width {
        result := result + "\n" + indent + word;
        col := |word|;
      } else {
        result := result + " " + word;
        col := col + 1 + |word|;
      }
    }
    assert words[..|words|] == words;
  }

  // ----- what the lines are -----

  function Flatten(lines: seq<Line>): seq<string> {
    if lines == [] then [] else lines[0] + Flatten(lines[1..])
  }

  lemma {:induction false} FlattenConcat(a: seq<Line>, b: seq<Line>)
    ensures Flatten(a + b) == Flatten(a) + Flatten(b)
  {
    if a == [] {
      assert a + b == b;
    } else {
      assert (a + b)[1..] == a[1..] + b;
      FlattenConcat(a[1..], b);
    }
  }

  lemma FlattenLast(lines: seq<Line>, last: Line)
    ensures Flatten(lines + [last]) == Flatten(lines) + last
  {
    FlattenConcat(lines, [last]);
    assert Flatten([last]) == last + Flatten([]);
  }

  /** No line is wider than `width` unless it is one word. */
  ghost predicate Admissible(lines: seq<Line>, width: int) {
    forall i :: 0 <= i < |lines| ==> lines[i] != [] && (|lines[i]| == 1 || |Joined(lines[i])| <= width)
  }

  /** Every line but the first begins with a word that did not fit on the line before. */
  ghost predicate Full(lines: seq<Line>, width: int)
    requires Admissible(lines, width)
  {
    forall i :: 0 <= i < |lines| - 1 ==> |Joined(lines[i] + [lines[i + 1][0]])| > width
  }

  lemma WithWordFlatten(lines: seq<Line>, word: string, width: int)
    ensures Flatten(WithWord(lines, word, width)) == Flatten(lines) + [word]
  {
    hide Joined; hide Flatten;
    FlattenLast(lines, [word]);
    if lines == [] {
      assert [] + [[word]] == WithWord(lines, word, width);
    } else {
      var others, last := lines[..|lines| - 1], lines[|lines| - 1];
      LastSplit(lines);
      FlattenLast(others, last);
      FlattenLast(others, last + [word]);
      Assoc(Flatten(others), last, [word]);
    }
  }

  lemma LastSplit(lines: seq<Line>)
    requires lines != []
    ensures lines == lines[..|lines| - 1] + [lines[|lines| - 1]]
  {
  }

  lemma Assoc(a: Line, b: Line, c: Line)
    ensures a + (b + c) == a + b + c
  {
  }

  lemma NewLineGreedy(lines: seq<Line>, word: string, width: int)
    requires Admissible(lines, width) && Full(lines, width)
    requires lines != [] ==> |Joined(lines[|lines| - 1] + [word])| > width
    ensures Admissible(lines + [[word]], width) && Full(lines + [[word]], width)
  {
    hide Joined;
  }

  lemma SameLineGreedy(others: seq<Line>, last: Line, word: string, width: int)
    requires Admissible(others + [last], width) && Full(others + [last], width) && |Joined(last + [word])| <= width
    ensures Admissible(others + [last + [word]], width) && Full(others + [last + [word]], width)
  {
    hide Joined;
    var lines, more := others + [last], others + [last + [word]];
    assert lines[|others|] == last;
    assert forall i :: 0 <= i < |others| ==> more[i] == lines[i];
    assert more[|others|][0] == last[0];
  }

  /** One more word keeps the lines admissible and full. */
  lemma WithWordGreedy(lines: seq<Line>, word: string, width: int)
    requires Admissible(lines, width) && Full(lines, width)
    ensures Admissible(WithWord(lines, word, width), width) && Full(WithWord(lines, word, width), width)
  {
    if lines == [] {
      NewLineGreedy([], word, width);
    } else {
      var others, last := lines[..|lines| - 1], lines[|lines| - 1];
      hide Admissible; hide Full; hide Joined;
      LastSplit(lines);
      LastNotEmpty(lines, width);
      JoinedMore(last, word);
      if |Joined(last)| + |word| + 1 > width { NewLineGreedy(lines, word, width); } else { SameLineGreedy(others, last, word, width); }
    }
  }

  lemma LastNotEmpty(lines: seq<Line>, width: int)
    requires lines != [] && Admissible(lines, width)
    ensures lines[|lines| - 1] != []
  {
  }

  /** The words come out in order and the lines are admissible and full. */
  lemma {:induction false} LinesGreedy(words: seq<string>, width: int)
    ensures Flatten(Lines(words, width)) == words
    ensures Admissible(Lines(words, width), width) && Full(Lines(words, width), width)
  {
    if words != [] {
      var front, word := words[..|words| - 1], words[|words| - 1];
      LinesGreedy(front, width);
      hide Joined; hide Admissible; hide Full; hide WithWord; hide Flatten;
      WithWordFlatten(Lines(front, width), word, width);
      WithWordGreedy(Lines(front, width), word, width);
      assert front + [word] == words;
    } else {
      assert Lines(words, width) == [];
    }
  }

  lemma JoinedOne(word: string)
    ensures Joined([word]) == word
  {
  }

  lemma Append(a: string, b: string, c: string)
    ensures a + " " + b + " " + c == a + " " + (b + " " + c)
  {
  }

  lemma {:induction false} JoinedConcat(a: Line, b: Line)
    requires a != [] && b != []
    ensures Joined(a + b) == Joined(a) + " " + Joined(b)
  {
    hide Joined;
    var front, word := b[..|b| - 1], b[|b| - 1];
    if front == [] {
      assert b == [word];
      JoinedOne(word);
      JoinedMore(a, word);
    } else {
      JoinedConcat(a, front);
      JoinedMore(front, word);
      JoinedMore(a + front, word);
      assert a + b == (a + front) + [word] && front + [word] == b;
      Append(Joined(a), Joined(front), word);
    }
  }

  /** A stretch of a line is no wider than the line. */
  lemma JoinedWithin(line: Line, from: nat, to: nat)
    requires from < to <= |line|
    ensures |Joined(line[from..to])| <= |Joined(line)|
  {
    if to < |line| {
      JoinedConcat(line[..to], line[to..]);
      assert line[..to] + line[to..] == line;
    } else {
      assert line[..to] == line;
    }
    if from > 0 {
      JoinedConcat(line[..from], line[from..to]);
      assert line[..from] + line[from..to] == line[..to];
    } else {
      assert line[from..to] == line[..to];
    }
  }

  lemma FullRest(lines: seq<Line>, width: int)
    requires lines != [] && Admissible(lines, width) && Full(lines, width)
    ensures Admissible(lines[1..], width) && Full(lines[1..], width)
  {
  }

  /**
   Full lines stay ahead: wherever they start among the words another way of
   breaking still has to place, they need no more lines than it.
   */
  lemma {:induction false} StaysAhead(lines: seq<Line>, others: seq<Line>, k: nat, width: int)
    requires Admissible(lines, width) && Full(lines, width) && Admissible(others, width)
    requires k <= |Flatten(others)| && Flatten(lines) == Flatten(others)[k..]
    ensures |lines| <= |others|
    decreases |lines|
  {
    if lines != [] && others != [] {
      var line, other := lines[0], others[0];
      var words := Flatten(others);
      FullRest(lines, width);
      var rest := others[1..];
      assert forall i :: 0 <= i < |rest| ==> rest[i] == others[i + 1];
      if |lines| > 1 {
        if k + |line| < |other| {
          WouldFit(lines, other, words, k);
          JoinedWithin(other, k, k + |line| + 1);
          assert false;
        }
        assert words[k..][|line|..] == words[|other|..][k + |line| - |other|..];
        StaysAhead(lines[1..], rest, k + |line| - |other|, width);
      }
    }
  }

  /** When the other line reaches further, it holds all of the first line and its successor's first word. */
  lemma WouldFit(lines: seq<Line>, other: Line, words: seq<string>, k: nat)
    requires |lines| > 1 && lines[1] != [] && k <= |words| && Flatten(lines) == words[k..]
    requires other <= words && k + |lines[0]| < |other|
    ensures other[k..k + |lines[0]| + 1] == lines[0] + [lines[1][0]]
  {
  }

  /** No way of breaking the words into admissible lines uses fewer lines. */
  lemma WrapOptimal(words: seq<string>, width: int, others: seq<Line>)
    requires Flatten(others) == words && Admissible(others, width)
    ensures |Lines(words, width)| <= |others|
  {
    LinesGreedy(words, width);
    StaysAhead(Lines(words, width), others, 0, width);
  }

  // ----- reading the result back -----

  ghost predicate IsWord(s: string) {
    s != "" && forall i :: 0 <= i < |s| ==> !IsSpace(s[i])
  }

  ghost predicate Blank(s: string) {
    forall i :: 0 <= i < |s| ==> IsSpace(s[i])
  }

  lemma {:induction false} FieldsAreWords(s: string)
    ensures forall i :: 0 <= i < |Fields(s)| ==> IsWord(Fields(s)[i])
  {
    if s != "" { FieldsAreWords(s[..|s| - 1]); }
  }

  lemma {:induction false} FieldsBlank(s: string, blank: string)
    requires Blank(blank)
    ensures Fields(s + blank) == Fields(s)
  {
    if blank == "" {
      assert s + blank == s;
    } else {
      var n := |blank| - 1;
      assert (s + blank)[..|s| + n] == s + blank[..n];
      FieldsBlank(s, blank[..n]);
    }
  }

  /** One more character of a word, or the first one. */
  lemma FieldsChar(s: string, c: char)
    requires !IsSpace(c)
    ensures EndsWord(s + [c])
    ensures var words := Fields(s);
      Fields(s + [c]) == if EndsWord(s) then words[..|words| - 1] + [words[|words| - 1] + [c]] else words + [[c]]
  {
  }

  lemma {:induction false} FieldsWord(s: string, word: string)
    requires !EndsWord(s) && IsWord(word)
    ensures Fields(s + word) == Fields(s) + [word] && EndsWord(s + word)
  {
    var n, c := |word| - 1, word[|word| - 1];
    var front := word[..n];
    assert s + front + [c] == s + word && front + [c] == word;
    FieldsChar(s + front, c);
    if n > 0 {
      FieldsWord(s, front);
      hide Fields; hide EndsWord; hide IsSpace;
      assert (Fields(s) + [front])[..|Fields(s)|] == Fields(s);
    } else {
      assert s + front == s;
    }
  }

  lemma {:induction false} FieldsLine(s: string, line: Line)
    requires !EndsWord(s) && forall i :: 0 <= i < |line| ==> IsWord(line[i])
    ensures Fields(s + Joined(line)) == Fields(s) + line
  {
    hide Fields;
    if |line| <= 1 {
      if line == [] { assert s + "" == s; } else { FieldsWord(s, line[0]); }
    } else {
      hide IsWord; hide EndsWord; hide IsSpace;
      var front, word := line[..|line| - 1], line[|line| - 1];
      FieldsLine(s, front);
      OneBlank();
      FieldsMore(s + Joined(front), " ", word);
      assert s + Joined(line) == s + Joined(front) + " " + word;
    }
  }

  lemma OneBlank()
    ensures Blank(" ")
  {
  }

  lemma FieldsMore(s: string, blank: string, word: string)
    requires Blank(blank) && blank != "" && IsWord(word)
    ensures Fields(s + blank + word) == Fields(s) + [word]
  {
    FieldsBlank(s, blank);
    FieldsWord(s + blank, word);
  }

  ghost predicate OfWords(lines: seq<Line>) {
    forall i, j :: 0 <= i < |lines| && 0 <= j < |lines[i]| ==> IsWord(lines[i][j])
  }

  /** Splitting laid-out lines gives their words back. */
  lemma {:induction false} FieldsLayout(lines: seq<Line>, indent: string)
    requires OfWords(lines) && Blank(indent)
    ensures Fields(Layout(lines, indent)) == Flatten(lines)
  {
    if lines != [] {
      var front, last := lines[..|lines| - 1], lines[|lines| - 1];
      FlattenLast(front, last);
      assert front + [last] == lines;
      FieldsLayout(front, indent);
      var blank := if front == [] then indent else "\n" + indent;
      FieldsBlank(Layout(front, indent), blank);
      FieldsLine(Layout(front, indent) + blank, last);
      LayoutLast(lines, indent);
    }
  }

  lemma LayoutLast(lines: seq<Line>, indent: string)
    requires lines != []
    ensures var front := lines[..|lines| - 1];
      Layout(lines, indent) == Layout(front, indent) + (if front == [] then indent else "\n" + indent) + Joined(lines[|lines| - 1])
  {
  }

  lemma {:induction false} FlattenHas(lines: seq<Line>, i: nat, j: nat)
    requires i < |lines| && j < |lines[i]|
    ensures lines[i][j] in Flatten(lines)
  {
    if i > 0 { FlattenHas(lines[1..], i - 1, j); }
  }

  /** Wrapping loses and reorders no word, and wrapping again changes nothing. */
  lemma WrapKeepsWords(text: string, width: int, indent: string)
    requires Blank(indent)
    ensures var result := Layout(Lines(Fields(text), width), indent);
      Fields(result) == Fields(text) && Layout(Lines(Fields(result), width), indent) == result
  {
    var lines := Lines(Fields(text), width);
    LinesGreedy(Fields(text), width);
    FieldsAreWords(text);
    forall i, j | 0 <= i < |lines| && 0 <= j < |lines[i]| ensures IsWord(lines[i][j]) {
      FlattenHas(lines, i, j);
    }
    FieldsLayout(lines, indent);
  }

  /** The pieces of `s` between the characters `c`. */
  function SplitAt(s: string, c: char): (r: seq<string>)
    ensures r != []
  {
    if s == "" then [""]
    else
      var pieces := SplitAt(s[..|s| - 1], c);
      if s[|s| - 1] == c then pieces + [""] else pieces[..|pieces| - 1] + [pieces[|pieces| - 1] + [s[|s| - 1]]]
  }

  function Longer(pieces: seq<string>, more: string): seq<string>
    requires pieces != []
  {
    pieces[..|pieces| - 1] + [pieces[|pieces| - 1] + more]
  }

  lemma LongerTwice(pieces: seq<string>, more: string, x: char)
    requires pieces != []
    ensures Longer(Longer(pieces, more), [x]) == Longer(pieces, more + [x])
  {
    var last := pieces[|pieces| - 1];
    assert Longer(pieces, more)[..|pieces| - 1] == pieces[..|pieces| - 1];
    assert last + more + [x] == last + (more + [x]);
  }

  /** One more character, in terms of the text before it. */
  lemma SplitStep(s: string, x: char, c: char)
    ensures SplitAt(s + [x], c) == if x == c then SplitAt(s, c) + [""] else Longer(SplitAt(s, c), [x])
  {
    assert (s + [x])[..|s|] == s;
  }

  /** The last piece grows by what has no separator in it. */
  lemma {:induction false} SplitGrows(s: string, more: string, c: char)
    requires c !in more
    ensures SplitAt(s + more, c) == Longer(SplitAt(s, c), more)
  {
    hide SplitAt;
    var pieces := SplitAt(s, c);
    if more == "" {
      assert s + more == s && pieces[|pieces| - 1] + more == pieces[|pieces| - 1];
    } else {
      hide Longer;
      var front, x := more[..|more| - 1], more[|more| - 1];
      assert s + more == s + front + [x] && front + [x] == more;
      SplitGrows(s, front, c);
      SplitStep(s + front, x, c);
      LongerTwice(pieces, front, x);
    }
  }

  lemma SplitPiece(s: string, piece: string, c: char)
    requires c !in piece
    ensures SplitAt(s + [c] + piece, c) == SplitAt(s, c) + [piece]
  {
    SplitGrows(s + [c], piece, c);
    SplitStep(s, c, c);
    hide SplitAt;
    assert "" + piece == piece;
  }

  lemma SplitNone(piece: string, c: char)
    requires c !in piece
    ensures SplitAt(piece, c) == [piece]
  {
    SplitGrows("", piece, c);
    assert SplitAt("", c) == [""];
    hide SplitAt;
    assert "" + piece == piece;
  }

  /** A line's words are what is between its blanks. */
  lemma {:induction false} WordsBetweenBlanks(line: Line)
    requires line != [] && forall i :: 0 <= i < |line| ==> ' ' !in line[i]
    ensures SplitAt(Joined(line), ' ') == line
  {
    hide SplitAt;
    var front, word := line[..|line| - 1], line[|line| - 1];
    assert front + [word] == line;
    if front == [] {
      SplitNone(word, ' ');
    } else {
      WordsBetweenBlanks(front);
      SplitPiece(Joined(front), word, ' ');
    }
  }

  function Indented(lines: seq<Line>, indent: string): seq<string> {
    if lines == [] then [] else Indented(lines[..|lines| - 1], indent) + [indent + Joined(lines[|lines| - 1])]
  }

  lemma LayoutNone(indent: string)
    ensures Layout([], indent) == "" && forall s: string :: "" + s == s
  {
  }

  lemma Regroup(s: string, t: string, u: string)
    ensures s + ("\n" + t) + u == s + ['\n'] + (t + u)
  {
  }

  /** Between the newlines of the text are the lines, each behind the indent. */
  lemma {:induction false} LinesBetweenNewlines(lines: seq<Line>, indent: string)
    requires lines != [] && '\n' !in indent && forall i :: 0 <= i < |lines| ==> '\n' !in Joined(lines[i])
    ensures SplitAt(Layout(lines, indent), '\n') == Indented(lines, indent)
  {
    hide SplitAt; hide Joined; hide Layout;
    var front, last := lines[..|lines| - 1], lines[|lines| - 1];
    LayoutLast(lines, indent);
    if front == [] {
      LayoutNone(indent);
      SplitNone(indent + Joined(last), '\n');
    } else {
      LinesBetweenNewlines(front, indent);
      Regroup(Layout(front, indent), indent, Joined(last));
      SplitPiece(Layout(front, indent), indent + Joined(last), '\n');
    }
  }

  lemma {:induction false} NoNewline(line: Line)
    requires forall i :: 0 <= i < |line| ==> IsWord(line[i])
    ensures '\n' !in Joined(line)
  {
    if line != [] {
      var n := |line| - 1;
      assert IsSpace('\n') && IsWord(line[n]);
      NoNewline(line[..n]);
    }
  }

  /** So it is for the text that is wrapped, with an indent on one line. */
  lemma WrapLines(text: string, width: int, indent: string)
    requires '\n' !in indent && Fields(text) != []
    ensures var lines := Lines(Fields(text), width);
      SplitAt(Layout(lines, indent), '\n') == Indented(lines, indent)
  {
    var lines := Lines(Fields(text), width);
    LinesGreedy(Fields(text), width);
    FieldsAreWords(text);
    forall i | 0 <= i < |lines| ensures '\n' !in Joined(lines[i]) {
      forall j | 0 <= j < |lines[i]| ensures IsWord(lines[i][j]) { FlattenHas(lines, i, j); }
      NoNewline(lines[i]);
    }
    LinesBetweenNewlines(lines, indent);
  }

  const BLANKS := {' ', '\t', '\n', '\r', 11 as char, 12 as char}

  function NonSpace(s: string): string {
    if s == "" then "" else NonSpace(s[..|s| - 1]) + if s[|s| - 1] in BLANKS then "" else [s[|s| - 1]]
  }

  function Concat(words: seq<string>): string {
    if words == [] then "" else Concat(words[..|words| - 1]) + words[|words| - 1]
  }

  /** The fields are the characters of the text other than white space, in order. */
  lemma {:induction false} FieldsKeep(s: string)
    ensures Concat(Fields(s)) == NonSpace(s)
  {
    if s != "" {
      var before, c := s[..|s| - 1], s[|s| - 1];
      FieldsKeep(before);
      var words := Fields(before);
      if IsSpace(c) {
        assert NonSpace(before) + "" == NonSpace(before);
      } else if !EndsWord(before) {
        assert (words + [[c]])[..|words|] == words;
      } else {
        var n := |words| - 1;
        var more := words[..n] + [words[n] + [c]];
        assert more[..n] == words[..n];
        assert Concat(more) == Concat(words[..n]) + (words[n] + [c]) == Concat(words) + [c];
      }
    }
  }
}
