/** Newline-separated text: joining, splitting and trimming, as both ends of the link do it. */
module Lines {

  // The characters String.prototype.trim removes.
  predicate IsSpace(c: char) {
    || '\t' <= c <= '\r' || c == ' ' || c == '\U{A0}' || c == '\U{1680}' || '\U{2000}' <= c <= '\U{200A}'
    || c == '\U{2028}' || c == '\U{2029}' || c == '\U{202F}' || c == '\U{205F}' || c == '\U{3000}' || c == '\U{FEFF}'
  }

  function TrimLeft(s: string): string {
    if s != [] && IsSpace(s[0]) then TrimLeft(s[1..]) else s
  }

  function TrimRight(s: string): string {
    if s != [] && IsSpace(s[|s| - 1]) then TrimRight(s[..|s| - 1]) else s
  }

  function Trim(s: string): string {
    TrimRight(TrimLeft(s))
  }

  function Split(s: string): (lines: seq<string>)
    ensures lines != []
  {
    if s == [] then [""]
    else
      var rest := Split(s[1..]);
      if s[0] == '\n' then [""] + rest else [[s[0]] + rest[0]] + rest[1..]
  }

  // The trimmed lines that are not empty.
  function Texts(lines: seq<string>): seq<string> {
    if lines == [] then []
    else (if Trim(lines[0]) == "" then [] else [Trim(lines[0])]) + Texts(lines[1..])
  }

  // Every line followed by a newline.
  function Join(lines: seq<string>): string {
    if lines == [] then "" else lines[0] + "\n" + Join(lines[1..])
  }

  function TrimEach(lines: seq<string>): seq<string> {
    if lines == [] then [] else [Trim(lines[0])] + TrimEach(lines[1..])
  }

  predicate OneLine(s: string) {
    '\n' !in s
  }

  lemma {:induction false} SplitPiecesAreLines(s: string)
    ensures forall i :: 0 <= i < |Split(s)| ==> OneLine(Split(s)[i])
  {
    if s != [] {
      SplitPiecesAreLines(s[1..]);
      var rest := Split(s[1..]);
      assert OneLine(rest[0]);
    }
  }

  lemma {:induction false} SplitLine(line: string, rest: string)
    requires OneLine(line)
    ensures Split(line + "\n" + rest) == [line] + Split(rest)
  {
    var s := line + "\n" + rest;
    if line == [] {
      assert s[1..] == rest;
    } else {
      assert s[1..] == line[1..] + "\n" + rest;
      SplitLine(line[1..], rest);
      assert [line[0]] + line[1..] == line;
    }
  }

  lemma SplitCons(c: char, s: string)
    ensures Split([c] + s) ==
            if c == '\n' then [""] + Split(s) else [[c] + Split(s)[0]] + Split(s)[1..]
  {
    assert ([c] + s)[1..] == s;
  }

  lemma SplitNothing()
    ensures Split("") == [""]
  {
  }

  lemma {:induction false} SplitSnoc(s: string, c: char)
    ensures var lines := Split(s); var n := |lines| - 1;
            Split(s + [c]) == if c == '\n' then lines + [""] else lines[..n] + [lines[n] + [c]]
  {
    hide Split;
    if s == [] {
      SplitNothing();
      SplitCons(c, s);
      assert s + [c] == [c] + s;
    } else {
      SplitSnoc(s[1..], c);
      SplitCons(s[0], s[1..]);
      SplitCons(s[0], s[1..] + [c]);
      assert s == [s[0]] + s[1..] && s + [c] == [s[0]] + (s[1..] + [c]);
      var rest := Split(s[1..]);
      if s[0] != '\n' && |rest| == 1 {
        assert [s[0]] + (rest[0] + [c]) == ([s[0]] + rest[0]) + [c];
      }
    }
  }

  lemma {:induction false} TextsConcat(a: seq<string>, b: seq<string>)
    ensures Texts(a + b) == Texts(a) + Texts(b)
  {
    hide Trim;
    if a == [] {
      assert a + b == b;
    } else {
      assert (a + b)[1..] == a[1..] + b;
      TextsConcat(a[1..], b);
    }
  }

  lemma {:induction false} TrimLeftSnoc(s: string, c: char)
    requires IsSpace(c)
    ensures TrimLeft(s + [c]) == if TrimLeft(s) == [] then [] else TrimLeft(s) + [c]
  {
    hide IsSpace;
    if s == [] {
      assert s + [c] == [c] && [c][1..] == [];
    } else if IsSpace(s[0]) {
      assert (s + [c])[1..] == s[1..] + [c];
      TrimLeftSnoc(s[1..], c);
    }
  }

  lemma TrimSnoc(s: string, c: char)
    requires IsSpace(c)
    ensures Trim(s + [c]) == Trim(s)
  {
    hide IsSpace;
    TrimLeftSnoc(s, c);
    var t := TrimLeft(s);
    assert (t + [c])[..|t|] == t;
  }

  // Blanks at either end of a text never make or change a line.
  lemma {:induction false} LeadingSpaceIsNoLine(s: string)
    ensures Texts(Split(TrimLeft(s))) == Texts(Split(s))
  {
    hide IsSpace;
    if s != [] && IsSpace(s[0]) {
      LeadingSpaceIsNoLine(s[1..]);
      var rest := Split(s[1..]);
      assert rest == [rest[0]] + rest[1..];
      if s[0] != '\n' {
        assert ([s[0]] + rest[0])[1..] == rest[0];
        assert Split(s)[1..] == rest[1..];
      } else {
        assert Split(s)[1..] == rest;
        assert Trim("") == "";
      }
    }
  }

  // One blank more at the end: a new empty line, or the last line a little longer.
  lemma BlankSnoc(s: string, c: char)
    requires IsSpace(c)
    ensures Texts(Split(s + [c])) == Texts(Split(s))
  {
    hide IsSpace, Trim, Texts, Split;
    SplitSnoc(s, c);
    var lines := Split(s);
    var n := |lines| - 1;
    if c == '\n' {
      TextsConcat(lines, [""]);
      EmptyIsNoText();
      assert Texts(lines) + [] == Texts(lines);
    } else {
      assert lines == lines[..n] + [lines[n]];
      TextsConcat(lines[..n], [lines[n]]);
      TextsConcat(lines[..n], [lines[n] + [c]]);
      SameText(lines[n], c);
    }
  }

  lemma SameText(line: string, c: char)
    requires IsSpace(c)
    ensures Texts([line + [c]]) == Texts([line])
  {
    hide IsSpace;
    TrimSnoc(line, c);
    hide Trim;
    assert [line][1..] == [] && [line + [c]][1..] == [];
  }

  lemma {:induction false} TrailingSpaceIsNoLine(s: string)
    ensures Texts(Split(TrimRight(s))) == Texts(Split(s))
  {
    hide IsSpace, Texts, Split;
    if s != [] && IsSpace(s[|s| - 1]) {
      var init, c := s[..|s| - 1], s[|s| - 1];
      TrailingSpaceIsNoLine(init);
      assert s == init + [c];
      BlankSnoc(init, c);
    }
  }

  lemma EmptyIsNoText()
    ensures Texts([""]) == []
  {
    assert Trim("") == "";
  }

  /** Joined lines, trimmed as a whole and split again, are the same lines, each trimmed. */
  lemma {:induction false} SplitJoined(lines: seq<string>)
    requires forall i :: 0 <= i < |lines| ==> OneLine(lines[i]) && Trim(lines[i]) != ""
    ensures Texts(Split(Join(lines))) == TrimEach(lines)
  {
    hide Trim;
    if lines == [] {
      EmptyIsNoText();
    } else {
      SplitLine(lines[0], Join(lines[1..]));
      SplitJoined(lines[1..]);
      assert ([lines[0]] + Split(Join(lines[1..])))[1..] == Split(Join(lines[1..]));
    }
  }

  lemma TextsOfTrimmed(s: string)
    ensures Texts(Split(Trim(s))) == Texts(Split(s))
  {
    LeadingSpaceIsNoLine(s);
    TrailingSpaceIsNoLine(TrimLeft(s));
  }

  lemma {:induction false} TrimLeftMeans(s: string) returns (blank: string)
    ensures s == blank + TrimLeft(s) && forall i :: 0 <= i < |blank| ==> IsSpace(blank[i])
    ensures TrimLeft(s) != "" ==> !IsSpace(TrimLeft(s)[0])
  {
    hide IsSpace;
    if s != "" && IsSpace(s[0]) {
      var rest := TrimLeftMeans(s[1..]);
      blank := [s[0]] + rest;
      assert s == [s[0]] + s[1..];
    } else {
      blank := "";
    }
  }

  lemma {:induction false} TrimRightMeans(s: string) returns (blank: string)
    ensures s == TrimRight(s) + blank && forall i :: 0 <= i < |blank| ==> IsSpace(blank[i])
    ensures TrimRight(s) != "" ==> !IsSpace(TrimRight(s)[|TrimRight(s)| - 1])
  {
    hide IsSpace;
    if s != "" && IsSpace(s[|s| - 1]) {
      var rest := TrimRightMeans(s[..|s| - 1]);
      blank := rest + [s[|s| - 1]];
      assert s == s[..|s| - 1] + [s[|s| - 1]];
    } else {
      blank := "";
    }
  }

  /** Trimming takes blanks away at both ends, all of them and nothing else; in ASCII, blanks are the
      space and the characters from 9 to 13. */
  lemma TrimMeans(s: string) returns (before: string, after: string)
    ensures s == before + Trim(s) + after
    ensures forall i :: 0 <= i < |before| ==> IsSpace(before[i])
    ensures forall i :: 0 <= i < |after| ==> IsSpace(after[i])
    ensures Trim(s) != "" ==> !IsSpace(Trim(s)[0]) && !IsSpace(Trim(s)[|Trim(s)| - 1])
    ensures forall c: char :: c as int < 128 ==> (IsSpace(c) <==> 9 <= c as int <= 13 || c as int == 32)
  {
    before := TrimLeftMeans(s);
    after := TrimRightMeans(TrimLeft(s));
    assert TrimLeft(s) == Trim(s) + after;
  }
}
