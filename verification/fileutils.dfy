/** The line splitting of `LoadFile` (utils/fileutils.go and its copy in
    01/part1.go).  Reading the file is left out: the model starts from the
    file's contents as a string. */
module FileUtils {
  import opened Outcome
  import opened Text

  predicate EndsWithNewline(content: string) {
    |content| > 0 && content[|content| - 1] == '\n'
  }

  /** `strings.Split(content, "\n")` with one trailing empty piece dropped. */
  function SplitLines(content: string): (lines: seq<string>)
  {
    var parts := SplitOn(content, "\n");
    if parts[|parts| - 1] == "" then parts[..|parts| - 1] else parts
  }

  /** `utils.LoadFile`: the lines of the file, or a panic when there are none. */
  function LoadFile(content: string): (r: Result<seq<string>>)
    ensures r.Fatal? <==> content == ""
    ensures r.Ok? ==> |r.value| > 0
  {
    var lines := SplitLines(content);
    LastPieceEmpty(content, '\n');
    if |lines| == 0 then Fatal("The input file is empty.") else Ok(lines)
  }

  /** The `LoadFile` copy in 01/part1.go, which does not panic on an empty file. */
  function LoadFileLenient(content: string): (lines: seq<string>)
    ensures |lines| == 0 <==> content == ""
    ensures content != "" ==> LoadFile(content) == Ok(lines)
  {
    LastPieceEmpty(content, '\n');
    SplitLines(content)
  }

  /** The last piece of a split is empty exactly when the text is empty or ends
      with the separator. */
  lemma {:induction false} LastPieceEmpty(s: string, c: char)
    ensures var parts := SplitOn(s, [c]);
      parts[|parts| - 1] == "" <==> |s| == 0 || s[|s| - 1] == c
    ensures |SplitOn(s, [c])| == 1 && SplitOn(s, [c])[0] == "" ==> s == ""
    decreases |s|, 1
  {
    if |s| == 0 {
    } else if s[..1] == [c] {
      LastPieceAfterSeparator(s, c);
    } else {
      LastPieceAfterOther(s, c);
    }
  }

  lemma {:induction false} LastPieceAfterSeparator(s: string, c: char)
    requires |s| > 0 && s[..1] == [c]
    ensures var parts := SplitOn(s, [c]);
      parts[|parts| - 1] == "" <==> s[|s| - 1] == c
    ensures |SplitOn(s, [c])| > 1
    decreases |s|, 0
  {
    LastPieceEmpty(s[1..], c);
    var rest := SplitOn(s[1..], [c]);
    assert SplitOn(s, [c]) == [""] + rest;
    if |s| > 1 {
      assert s[1..][|s| - 2] == s[|s| - 1];
    }
  }

  lemma {:induction false} LastPieceAfterOther(s: string, c: char)
    requires |s| > 0 && s[..1] != [c]
    ensures var parts := SplitOn(s, [c]);
      parts[|parts| - 1] == "" <==> s[|s| - 1] == c
    ensures SplitOn(s, [c])[0] != ""
    decreases |s|, 0
  {
    LastPieceEmpty(s[1..], c);
    SplitOnChar(s[1..], c);
    var rest := SplitOn(s[1..], [c]);
    var parts := [[s[0]] + rest[0]] + rest[1..];
    assert SplitOn(s, [c]) == parts;
    if |rest| == 1 {
      assert CountChar(s[1..], c) == 0;
      if |s| > 1 {
        assert s[|s| - 1] == s[1..][|s| - 2];
        assert s[1..][|s| - 2] in s[1..];
      }
    } else {
      assert |s[1..]| > 0;
      assert parts[|parts| - 1] == rest[|rest| - 1];
      assert s[1..][|s| - 2] == s[|s| - 1];
    }
  }

  lemma {:induction false} JoinAppendEmpty(parts: seq<string>, sep: string)
    requires |parts| >= 1
    ensures Join(parts + [""], sep) == Join(parts, sep) + sep
    decreases |parts|
  {
    if |parts| == 1 {
      assert (parts + [""])[1..] == [""];
    } else {
      JoinAppendEmpty(parts[1..], sep);
      assert (parts + [""])[1..] == parts[1..] + [""];
    }
  }

  /** The properties of the split that `LoadFile` promises: no line contains a
      newline, one line per newline (plus one for an unterminated last line),
      and the lines joined back reproduce the contents. */
  lemma SplitLinesMeaning(content: string)
    requires content != ""
    ensures var lines := SplitLines(content);
      && (forall k :: 0 <= k < |lines| ==> '\n' !in lines[k])
      && |lines| == CountChar(content, '\n') + (if EndsWithNewline(content) then 0 else 1)
      && Join(lines, "\n") + (if EndsWithNewline(content) then "\n" else "") == content
  {
    var parts := SplitOn(content, "\n");
    var lines := SplitLines(content);
    SplitLinesPieces(content);
    SplitOnChar(content, '\n');
    SplitLinesJoin(content);
    assert forall k :: 0 <= k < |lines| ==> lines[k] == parts[k];
  }

  /** The lines are the pieces of the split, the trailing empty one dropped
      when the contents end in a newline. */
  lemma SplitLinesPieces(content: string)
    requires content != ""
    ensures var parts := SplitOn(content, "\n");
      var lines := SplitLines(content);
      && (EndsWithNewline(content) ==> parts == lines + [""])
      && (!EndsWithNewline(content) ==> parts == lines)
  {
    LastPieceEmpty(content, '\n');
    var parts := SplitOn(content, "\n");
    if EndsWithNewline(content) {
      assert parts == parts[..|parts| - 1] + [""];
    }
  }

  lemma SplitLinesJoin(content: string)
    requires content != ""
    ensures Join(SplitLines(content), "\n") + (if EndsWithNewline(content) then "\n" else "") == content
  {
    var parts := SplitOn(content, "\n");
    var lines := SplitLines(content);
    SplitLinesPieces(content);
    JoinSplit(content, "\n");
    if EndsWithNewline(content) {
      JoinAppendEmpty(lines, "\n");
    }
  }

  /** Empty contents are fatal; a lone newline is one empty line. */
  lemma LoadFileEdgeCases()
    ensures LoadFile("").Fatal?
    ensures LoadFile("\n") == Ok([""])
    ensures LoadFileLenient("") == []
  {
    assert SplitOn("\n", "\n") == [""] + SplitOn("", "\n");
  }
}
