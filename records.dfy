/**
 * The file record store: the text of a data file, with its comment lines
 * stripped, its carriage returns removed and the rest split at newlines,
 * one record per piece. A record is kept here as its raw line (the default
 * record holds nothing else). Reading the file is outside the model: its
 * contents are a parameter, `None` when the file cannot be read.
 */
module Records {
  import opened Wrappers
  import StringUtils

  const E_NULL_PARAM := "path cannot be null"
  const E_BAD_FILE := "cannot read file: "

  // ---------------------------------------------------------------------
  // The text operations of `process`

  /** `raw.replaceAll("\\r", "")`: the text without its carriage returns, otherwise in order. */
  function RemoveReturns(s: string): (r: string)
    ensures '\r' !in r
  {
    if s == [] then ""
    else (if s[0] == '\r' then "" else [s[0]]) + RemoveReturns(s[1..])
  }

  /** Text without carriage returns is left as it is. */
  lemma {:induction false} RemoveReturnsNone(s: string)
    requires '\r' !in s
    ensures RemoveReturns(s) == s
  {
    if s != [] {
      RemoveReturnsNone(s[1..]);
      assert s == [s[0]] + s[1..];
    }
  }

  /** The text between newlines: one piece more than there are newlines. */
  function Pieces(s: string): (ps: seq<string>)
    ensures |ps| > 0
    ensures forall j :: 0 <= j < |ps| ==> '\n' !in ps[j]
  {
    if '\n' !in s then [s]
    else
      var k := NewlineAt(s);
      [s[..k]] + Pieces(s[k + 1..])
  }

  /** The index of the first newline of `s`. */
  function NewlineAt(s: string): (k: nat)
    requires '\n' in s
    ensures k < |s| && s[k] == '\n' && '\n' !in s[..k]
  {
    if s[0] == '\n' then 0
    else
      var k := NewlineAt(s[1..]) + 1;
      assert s[..k] == [s[0]] + s[1..][..k - 1];
      k
  }

  /** The pieces joined back with newlines. */
  function Joined(ps: seq<string>): string
    requires |ps| > 0
  {
    if |ps| == 1 then ps[0] else ps[0] + "\n" + Joined(ps[1..])
  }

  /** Splitting at newlines and joining again gives back the text. */
  lemma {:induction false} JoinedPieces(s: string)
    ensures Joined(Pieces(s)) == s
  {
    if '\n' in s {
      var k := NewlineAt(s);
      JoinedPieces(s[k + 1..]);
      assert Pieces(s)[1..] == Pieces(s[k + 1..]);
      assert s == s[..k] + "\n" + s[k + 1..];
    }
  }

  /** The pieces without the empty ones at the end. */
  function DropTrailingEmpty(ps: seq<string>): (r: seq<string>)
    ensures |r| <= |ps| && r == ps[..|r|]
    ensures |r| > 0 ==> r[|r| - 1] != ""
    ensures forall j :: |r| <= j < |ps| ==> ps[j] == ""
  {
    if ps == [] then []
    else if ps[|ps| - 1] == "" then DropTrailingEmpty(ps[..|ps| - 1])
    else ps
  }

  /**
   * `s.split("\\n")`: the text itself when it has no newline (so an empty
   * text gives one empty piece); otherwise its pieces with the trailing
   * empty ones dropped.
   */
  function JavaSplit(s: string): (ps: seq<string>)
    ensures '\n' !in s ==> ps == [s]
    ensures |ps| <= |Pieces(s)| && ps == Pieces(s)[..|ps|]
    ensures forall j :: |ps| <= j < |Pieces(s)| ==> Pieces(s)[j] == ""
    ensures '\n' in s && |ps| > 0 ==> ps[|ps| - 1] != ""
  {
    if '\n' !in s then [s] else DropTrailingEmpty(Pieces(s))
  }

  /** Java's `\s`: space, tab, newline, vertical tab, form feed, carriage return. */
  predicate IsWhitespace(ch: char)
  {
    ch == ' ' || ch == '\t' || ch == '\n' || ch == 11 as char || ch == 12 as char || ch == '\r'
  }

  /** A line that `^\s*$` matches. */
  predicate IsBlank(line: string)
  {
    forall k :: 0 <= k < |line| ==> IsWhitespace(line[k])
  }

  /** The pieces that make records: all of them, or the non-blank ones when blank lines are suppressed. */
  function Kept(pieces: seq<string>, suppressBlankLines: bool): (r: seq<string>)
    ensures |r| <= |pieces|
    ensures !suppressBlankLines ==> r == pieces
  {
    if pieces == [] then []
    else
      var rest := Kept(pieces[1..], suppressBlankLines);
      if suppressBlankLines && IsBlank(pieces[0]) then rest else [pieces[0]] + rest
  }

  /** Every kept piece is one of the pieces, and none is blank when blank lines are suppressed. */
  lemma {:induction false} KeptSelects(pieces: seq<string>, suppressBlankLines: bool)
    ensures forall x :: x in Kept(pieces, suppressBlankLines) ==> x in pieces
    ensures suppressBlankLines ==> forall x :: x in Kept(pieces, suppressBlankLines) ==> !IsBlank(x)
  {
    if pieces != [] {
      KeptSelects(pieces[1..], suppressBlankLines);
      assert pieces == [pieces[0]] + pieces[1..];
    }
  }

  lemma KeptAppend(pieces: seq<string>, p: string, suppressBlankLines: bool)
    ensures Kept(pieces + [p], suppressBlankLines) ==
      Kept(pieces, suppressBlankLines) + (if suppressBlankLines && IsBlank(p) then [] else [p])
  {
    if pieces != [] {
      assert (pieces + [p])[1..] == pieces[1..] + [p];
      KeptAppend(pieces[1..], p, suppressBlankLines);
    } else {
      assert Kept([p], suppressBlankLines) == (if suppressBlankLines && IsBlank(p) then [] else [p]);
    }
  }

  /** The raw lines `process(raw, suppressBlankLines)` makes records of, in order. */
  function RecordsOf(raw: string, suppressBlankLines: bool): seq<string>
  {
    Kept(JavaSplit(RemoveReturns(raw)), suppressBlankLines)
  }

  // ---------------------------------------------------------------------
  // What reaches `process`: the output of `stripCommentLines`

  /** A line without a newline, then a newline, comes back as the first piece. */
  lemma PiecesCons(line: string, rest: string)
    requires '\n' !in line
    ensures Pieces(line + "\n" + rest) == [line] + Pieces(rest)
  {
    var s := line + "\n" + rest;
    assert s[|line|] == '\n' && s[..|line|] == line;
    assert NewlineAt(s) == |line|;
    assert s[|line| + 1..] == rest;
  }

  /** Lines joined with a newline after each one break back into those lines and one empty piece. */
  lemma {:induction false} PiecesOfKeptText(lines: seq<string>)
    requires forall j :: 0 <= j < |lines| ==> StringUtils.NoTerminator(lines[j])
    ensures Pieces(StringUtils.KeptText(lines, "\n")) == StringUtils.Kept(lines) + [""]
  {
    if |lines| > 0 {
      PiecesOfKeptText(lines[1..]);
      var rest := StringUtils.KeptText(lines[1..], "\n");
      if !StringUtils.IsComment(lines[0]) {
        var line := lines[0];
        assert '\n' !in line by {
          forall k | 0 <= k < |line|
            ensures line[k] != '\n'
          {
            assert !StringUtils.IsTerminator(line[k]);
          }
        }
        PiecesCons(line, rest);
        assert StringUtils.KeptText(lines, "\n") == line + "\n" + rest;
        assert StringUtils.Kept(lines) == [line] + StringUtils.Kept(lines[1..]);
      } else {
        assert StringUtils.KeptText(lines, "\n") == rest;
        assert StringUtils.Kept(lines) == StringUtils.Kept(lines[1..]);
      }
    }
  }

  /** With a `\n` or `\r\n` line separator, removing the carriage returns leaves the `\n` form. */
  lemma {:induction false} RemoveReturnsOfKeptText(lines: seq<string>, eol: string)
    requires eol == "\n" || eol == "\r\n"
    requires forall j :: 0 <= j < |lines| ==> StringUtils.NoTerminator(lines[j])
    ensures RemoveReturns(StringUtils.KeptText(lines, eol)) == StringUtils.KeptText(lines, "\n")
  {
    if |lines| > 0 {
      RemoveReturnsOfKeptText(lines[1..], eol);
      var head := if StringUtils.IsComment(lines[0]) then "" else lines[0] + eol;
      RemoveReturnsConcat(head, StringUtils.KeptText(lines[1..], eol));
      if !StringUtils.IsComment(lines[0]) {
        RemoveReturnsConcat(lines[0], eol);
        assert '\r' !in lines[0] by {
          forall k | 0 <= k < |lines[0]|
            ensures lines[0][k] != '\r'
          {
            assert !StringUtils.IsTerminator(lines[0][k]);
          }
        }
        RemoveReturnsNone(lines[0]);
        assert RemoveReturns(eol) == "\n";
      }
    }
  }

  lemma {:induction false} RemoveReturnsConcat(a: string, b: string)
    ensures RemoveReturns(a + b) == RemoveReturns(a) + RemoveReturns(b)
  {
    if a != [] {
      assert (a + b)[0] == a[0] && (a + b)[1..] == a[1..] + b;
      RemoveReturnsConcat(a[1..], b);
      var h := if a[0] == '\r' then "" else [a[0]];
      assert RemoveReturns(a) + RemoveReturns(b) == h + (RemoveReturns(a[1..]) + RemoveReturns(b));
    } else {
      assert a + b == b;
    }
  }

  /** A text has a newline exactly when it breaks into more than one piece. */
  lemma PiecesCount(s: string)
    ensures '\n' in s <==> |Pieces(s)| > 1
  {
  }

  /** Splitting the `\n` form of some lines gives back the kept lines less trailing empty ones, or one empty piece. */
  lemma SplitOfKeptText(lines: seq<string>)
    requires forall j :: 0 <= j < |lines| ==> StringUtils.NoTerminator(lines[j])
    ensures var kept := StringUtils.Kept(lines);
      JavaSplit(StringUtils.KeptText(lines, "\n")) == (if kept == [] then [""] else DropTrailingEmpty(kept))
  {
    var kept := StringUtils.Kept(lines);
    var text := StringUtils.KeptText(lines, "\n");
    PiecesOfKeptText(lines);
    PiecesCount(text);
    if kept == [] {
      assert Pieces(text) == [text];
    } else {
      var ps := kept + [""];
      assert ps[..|ps| - 1] == kept;
    }
  }

  /**
   * The pieces of a stripped text, with a `\n` or `\r\n` separator, are
   * its non-comment lines in order less the trailing empty ones, or one
   * empty piece when there is no such line; so no record is a comment line.
   */
  lemma RecordsOfStripped(s: string, eol: string, suppressBlankLines: bool)
    requires eol == "\n" || eol == "\r\n"
    ensures var kept := StringUtils.Kept(StringUtils.Lines(s));
      JavaSplit(RemoveReturns(StringUtils.KeptText(StringUtils.Lines(s), eol))) ==
        (if kept == [] then [""] else DropTrailingEmpty(kept))
    ensures forall x :: x in RecordsOf(StringUtils.KeptText(StringUtils.Lines(s), eol), suppressBlankLines) ==>
      !StringUtils.IsComment(x)
  {
    var lines := StringUtils.Lines(s);
    var kept := StringUtils.Kept(lines);
    RemoveReturnsOfKeptText(lines, eol);
    SplitOfKeptText(lines);
    StringUtils.KeptNoComment(lines);
    var pieces := if kept == [] then [""] else DropTrailingEmpty(kept);
    assert forall x :: x in pieces ==> !StringUtils.IsComment(x) by {
      if kept != [] {
        assert pieces == kept[..|pieces|];
        assert forall x :: x in pieces ==> x in kept;
      }
    }
    KeptSelects(pieces, suppressBlankLines);
  }

  // ---------------------------------------------------------------------
  // FileRecordStore

  /** `FileRecordStore`: the path it was read from and its records. */
  class FileRecordStore {
    const path: string
    var records: seq<string>

    /** The object before its file is processed. */
    constructor Init(path: string)
      ensures this.path == path && records == []
    {
      this.path := path;
      records := [];
    }

    /** `process(raw, suppressBlankLines)`: one record per piece that is kept, appended in order. */
    method Process(raw: string, suppressBlankLines: bool)
      modifies this`records
      ensures records == old(records) + RecordsOf(raw, suppressBlankLines)
    {
      var clean := RemoveReturns(raw);
      AddAll(JavaSplit(clean), suppressBlankLines);
    }

    /** The loop of `process`: `records.add(parseRawRecord(s))` for each piece that is kept. */
    method AddAll(pieces: seq<string>, suppressBlankLines: bool)
      modifies this`records
      ensures records == old(records) + Kept(pieces, suppressBlankLines)
    {
      var i := 0;
      while i < |pieces|
        invariant 0 <= i <= |pieces|
        invariant records == old(records) + Kept(pieces[..i], suppressBlankLines)
      {
        KeptAppend(pieces[..i], pieces[i], suppressBlankLines);
        assert pieces[..i + 1] == pieces[..i] + [pieces[i]];
        if !(suppressBlankLines && IsBlank(pieces[i])) {
          records := records + [pieces[i]];
        }
        i := i + 1;
      }
      assert pieces[..i] == pieces;
    }

    /** `getRecords()`: the records, as a value the caller cannot change. */
    function GetRecords(): (rs: seq<string>)
      reads this`records
      ensures |rs| == Size()
    {
      records
    }

    /** `size()`: the number of records. */
    function Size(): (n: nat)
      reads this`records
    {
      |records|
    }
  }

  /**
   * `new FileRecordStore(path, suppressBlankLines)`: a null path throws
   * before anything is read; unreadable contents are an illegal argument;
   * otherwise the records of the contents with comment lines stripped
   * (`eol` is the platform line separator).
   */
  method Open(path: Option<string>, contents: Option<string>, suppressBlankLines: bool, eol: string)
    returns (r: Result<FileRecordStore>)
    ensures path.None? ==> r == Failure(NullPointer)
    ensures path.Some? && contents.None? ==> r == Failure(IllegalArgument(E_BAD_FILE + path.value))
    ensures r.Success? <==> path.Some? && contents.Some?
    ensures r.Success? ==> (fresh(r.value) && r.value.path == path.value &&
      r.value.records == RecordsOf(StringUtils.KeptText(StringUtils.Lines(contents.value), eol), suppressBlankLines))
  {
    if path.None? {
      return Failure(NullPointer);
    }
    if contents.None? {
      return Failure(IllegalArgument(E_BAD_FILE + path.value));
    }
    var store := new FileRecordStore.Init(path.value);
    var stripped := StringUtils.StripCommentLines(contents.value, eol);
    store.Process(stripped, suppressBlankLines);
    return Success(store);
  }

  /** `new FileRecordStore(path)`: blank lines are suppressed. */
  method OpenDefault(path: Option<string>, contents: Option<string>, eol: string) returns (r: Result<FileRecordStore>)
    ensures r.Success? <==> path.Some? && contents.Some?
    ensures path.None? ==> r == Failure(NullPointer)
    ensures path.Some? && contents.None? ==> r == Failure(IllegalArgument(E_BAD_FILE + path.value))
    ensures r.Success? ==> (fresh(r.value) && r.value.path == path.value &&
      r.value.records == RecordsOf(StringUtils.KeptText(StringUtils.Lines(contents.value), eol), true))
    ensures r.Success? ==> forall x :: x in r.value.records ==> !IsBlank(x)
  {
    r := Open(path, contents, true, eol);
    if r.Success? {
      KeptSelects(JavaSplit(RemoveReturns(StringUtils.KeptText(StringUtils.Lines(contents.value), eol))), true);
    }
  }
}
