/** The text ApplyCommand generates, and what running it does to the checkout. */
module Remediation {
  import opened Basics
  import opened Shell

  // ---------------------------------------------------------------- paths

  /** unicode.IsSpace. */
  predicate Space(c: char) {
    || '\t' <= c <= '\r' || c == ' ' || c == '\U{0085}' || c == '\U{00A0}' || c == '\U{1680}' || '\U{2000}' <= c <= '\U{200a}'
    || c == '\U{2028}' || c == '\U{2029}' || c == '\U{202f}' || c == '\U{205f}' || c == '\U{3000}'
  }

  /** strings.TrimSpace. */
  function Trim(s: string): (t: string)
    ensures |t| <= |s|
    ensures t == "" || (!Space(t[0]) && !Space(t[|t| - 1]))
    ensures (s == "" || (!Space(s[0]) && !Space(s[|s| - 1]))) ==> t == s
  {
    if s == "" then ""
    else if Space(s[0]) then Trim(s[1..])
    else if Space(s[|s| - 1]) then Trim(s[..|s| - 1])
    else s
  }

  /** path.Clean of a relative path, component by component. */
  function CleanStep(acc: Path, part: string): Path {
    if part == "." then acc
    else if part == ".." then (if acc != [] && acc[|acc| - 1] != ".." then acc[..|acc| - 1] else acc + [".."])
    else acc + [part]
  }

  function CleanParts(parts: Path): Path {
    if parts == [] then [] else CleanStep(CleanParts(parts[..|parts| - 1]), parts[|parts| - 1])
  }

  function Join(parts: Path): string {
    if parts == [] then "" else if |parts| == 1 then parts[0] else parts[0] + "/" + Join(parts[1..])
  }

  function Clean(p: string): string {
    var parts := CleanParts(Components(p));
    if parts == [] then "." else Join(parts)
  }

  function HasPrefix(s: string, prefix: string): bool {
    prefix <= s
  }

  /** repoPath: None for every path it refuses. */
  function RepoPath(p: string): Option<string> {
    var trimmed := Trim(p);
    if trimmed == "" || '\0' in trimmed || HasPrefix(trimmed, "/") then None
    else
      var clean := Clean(trimmed);
      if clean == "." || clean == ".." || HasPrefix(clean, "../") || HasPrefix(clean, ".git/") then None
      else Some(clean)
  }

  predicate Named(part: string) {
    part != "" && part != "." && forall i :: 0 <= i < |part| ==> part[i] != '/'
  }

  /** A path made of ordinary names only. */
  predicate Ordinary(parts: Path) {
    parts != [] && forall i :: 0 <= i < |parts| ==> Named(parts[i]) && parts[i] != ".."
  }

  lemma {:induction false} SplitNamed(p: string, current: string)
    requires forall i :: 0 <= i < |current| ==> current[i] != '/'
    ensures forall i :: 0 <= i < |Split(p, current)| ==>
              Split(p, current)[i] != "" && forall j :: 0 <= j < |Split(p, current)[i]| ==>
                                              Split(p, current)[i][j] != '/'
    decreases |p|
  {
    if p != "" {
      if p[0] == '/' { SplitNamed(p[1..], ""); } else { SplitNamed(p[1..], current + [p[0]]); }
    }
  }

  /** After cleaning, parent steps survive only in front, and every other part is a name. */
  ghost predicate Cleaned(acc: Path) {
    && (forall i :: 0 <= i < |acc| ==> Named(acc[i]))
    && (forall i, j :: 0 <= i <= j < |acc| && acc[j] == ".." ==> acc[i] == "..")
  }

  lemma {:induction false} CleanPartsCleaned(parts: Path)
    requires forall i :: 0 <= i < |parts| ==> parts[i] != "" && forall j :: 0 <= j < |parts[i]| ==> parts[i][j] != '/'
    ensures Cleaned(CleanParts(parts))
  {
    if parts != [] {
      var n := |parts| - 1;
      CleanPartsCleaned(parts[..n]);
      var acc := CleanParts(parts[..n]);
      if parts[n] == ".." { assert Named(".."); }
      assert Cleaned(CleanStep(acc, parts[n])) by { hide CleanParts; }
    }
  }

  lemma {:induction false} SplitAppend(part: string, rest: string, current: string)
    requires forall i :: 0 <= i < |part| ==> part[i] != '/'
    ensures Split(part + rest, current) == Split(rest, current + part)
  {
    if part == "" {
      assert part + rest == rest && current + part == current;
    } else {
      assert (part + rest)[1..] == part[1..] + rest && (current + [part[0]]) + part[1..] == current + part;
      SplitAppend(part[1..], rest, current + [part[0]]);
    }
  }

  lemma {:induction false} JoinSplits(parts: Path)
    requires forall i :: 0 <= i < |parts| ==> Named(parts[i])
    ensures Components(Join(parts)) == parts
  {
    hide Named;
    if parts != [] {
      NamedPlain(parts[0]);
      if |parts| == 1 {
        SplitAppend(parts[0], "", "");
        assert parts[0] + "" == parts[0] && "" + parts[0] == parts[0];
      } else {
        JoinSplits(parts[1..]);
        var rest := "/" + Join(parts[1..]);
        SplitAppend(parts[0], rest, "");
        assert "" + parts[0] == parts[0] && rest[1..] == Join(parts[1..]);
        assert Join(parts) == parts[0] + rest;
        assert parts == [parts[0]] + parts[1..];
      }
    }
  }

  lemma NamedPlain(part: string)
    requires Named(part)
    ensures part != "" && forall i :: 0 <= i < |part| ==> part[i] != '/'
  {
  }

  lemma JoinStart(parts: Path)
    requires parts != []
    ensures parts[0] <= Join(parts)
    ensures |parts| > 1 ==> parts[0] + "/" <= Join(parts)
  {
  }

  lemma ParentFirst(parts: Path)
    requires parts != [] && parts[0] == ".."
    ensures Join(parts) == ".." || HasPrefix(Join(parts), "../")
  {
    JoinStart(parts);
    assert ".." + "/" == "../";
  }

  /** What repoPath returns is a path of ordinary names, and splitting it gives those names back. */
  lemma RepoPathIsOrdinary(p: string)
    requires RepoPath(p).Some?
    ensures Ordinary(Components(RepoPath(p).value))
    ensures Components(RepoPath(p).value) == CleanParts(Components(Trim(p)))
  {
    var parts := CleanParts(Components(Trim(p)));
    SplitNamed(Trim(p), "");
    CleanPartsCleaned(Components(Trim(p)));
    hide CleanParts, Trim, Components;
    assert parts != [];
    JoinSplits(parts);
    if parts[0] == ".." { ParentFirst(parts); }
  }

  // ---------------------------------------------------------------- edits

  datatype FileEdit = FileEdit(path: string, contents: string)

  const DELIMITER := "__SRE_PATCH_EOF__"

  /** The check validateEdits makes of one file's lines. */
  predicate NoDelimiterLine(contents: string) {
    forall i :: 0 <= i < |Lines(contents)| ==> Trim(Lines(contents)[i]) != DELIMITER
  }

  /** validateEdits: every path accepted and used once, no line that could end the here-document. */
  ghost predicate Acceptable(edits: seq<FileEdit>) {
    && (forall i :: 0 <= i < |edits| ==> RepoPath(edits[i].path).Some? && NoDelimiterLine(edits[i].contents))
    && (forall i, j :: 0 <= i < j < |edits| ==> RepoPath(edits[i].path) != RepoPath(edits[j].path))
  }

  function Cleansed(edits: seq<FileEdit>): (clean: seq<FileEdit>)
    requires forall i :: 0 <= i < |edits| ==> RepoPath(edits[i].path).Some?
    ensures |clean| == |edits| && forall i :: 0 <= i < |edits| ==>
              RepoPath(edits[i].path).Some? && clean[i] == edits[i].(path := RepoPath(edits[i].path).value)
  {
    seq(|edits|, i requires 0 <= i < |edits| && RepoPath(edits[i].path).Some? => edits[i].(path := RepoPath(edits[i].path).value))
  }

  /** A refused list may be left partly rewritten: paths only, and only to their clean form. */
  predicate CleanedOrKept(was: FileEdit, now: FileEdit) {
    now == was || (RepoPath(was.path).Some? && now == was.(path := RepoPath(was.path).value))
  }

  /** validateEdits as written: a loop that rewrites each path in place once it has been checked. */
  method ValidateEdits(edits: array<FileEdit>) returns (ok: bool)
    modifies edits
    ensures ok <==> Acceptable(old(edits[..]))
    ensures ok ==> edits[..] == Cleansed(old(edits[..]))
    ensures forall j :: 0 <= j < edits.Length ==> CleanedOrKept(old(edits[..])[j], edits[j])
  {
    hide RepoPath, NoDelimiterLine;
    ghost var was := edits[..];
    var seen: set<string> := {};
    for i := 0 to edits.Length
      invariant forall j :: 0 <= j < i ==>
                  RepoPath(was[j].path).Some? && NoDelimiterLine(was[j].contents) &&
                  edits[j] == was[j].(path := RepoPath(was[j].path).value)
      invariant forall j :: i <= j < edits.Length ==> edits[j] == was[j]
      invariant forall j, k :: 0 <= j < k < i ==> RepoPath(was[j].path) != RepoPath(was[k].path)
      invariant forall s :: s in seen <==> exists j :: 0 <= j < i && RepoPath(was[j].path) == Some(s)
    {
      var clean := RepoPath(edits[i].path);
      if clean.None? { return false; }
      if clean.value in seen { return false; }
      seen := seen + {clean.value};
      var fine := LinesAreSafe(edits[i].contents);
      if !fine { return false; }
      edits[i] := edits[i].(path := clean.value);
    }
    return true;
  }

  method LinesAreSafe(contents: string) returns (ok: bool)
    ensures ok <==> NoDelimiterLine(contents)
  {
    hide Trim;
    var lines := Lines(contents);
    for i := 0 to |lines|
      invariant forall j :: 0 <= j < i ==> Trim(lines[j]) != DELIMITER
    {
      if Trim(lines[i]) == DELIMITER { return false; }
    }
    return true;
  }

  // ---------------------------------------------------------------- the script

  const WORKSPACE := "/workspace/"

  function Target(e: FileEdit): string {
    WORKSPACE + e.path
  }

  /** path.Dir of a clean absolute path. */
  function DirOf(p: string): string {
    var c := Components(p);
    if c == [] then "/" else "/" + Join(c[..|c| - 1])
  }

  const MKDIR_TAIL := " || exit 90\n"

  function CatTail(delimiter: string): string {
    " <<'" + delimiter + "'\n"
  }

  function MkdirCommand(e: FileEdit): string {
    "mkdir -p " + ShellQuote(DirOf(Target(e))) + MKDIR_TAIL
  }

  function CatCommand(e: FileEdit): string {
    "cat > " + ShellQuote(Target(e)) + CatTail(DELIMITER)
  }

  function Block(e: FileEdit): string {
    MkdirCommand(e) + CatCommand(e) + WithNewline(e.contents) + DELIMITER + "\n"
  }

  function Blocks(edits: seq<FileEdit>): string {
    if edits == [] then "" else Blocks(edits[..|edits| - 1]) + Block(edits[|edits| - 1])
  }

  function Targets(edits: seq<FileEdit>): string {
    if edits == [] then ""
    else if |edits| == 1 then ShellQuote(Target(edits[0]))
    else ShellQuote(Target(edits[0])) + " " + Targets(edits[1..])
  }

  /** The text for edits whose paths are already clean. */
  function Script(edits: seq<FileEdit>): string {
    Blocks(edits) + "for f in " + Targets(edits) + "; do\n" + LOOP_BODY
  }

  /** strings.Join of the quoted targets. */
  method JoinTargets(edits: seq<FileEdit>) returns (s: string)
    ensures s == Targets(edits)
  {
    hide ShellQuote;
    s := "";
    var i := |edits|;
    while i > 0
      invariant 0 <= i <= |edits| && s == Targets(edits[i..])
    {
      i := i - 1;
      assert edits[i..][1..] == edits[i + 1..];
      s := if s == "" && i == |edits| - 1 then ShellQuote(Target(edits[i])) else ShellQuote(Target(edits[i])) + " " + s;
    }
    assert edits[0..] == edits;
  }

  /** ApplyCommand. */
  method ApplyCommand(edits: array<FileEdit>) returns (text: Option<string>)
    modifies edits
    ensures text.Some? <==> edits.Length > 0 && Acceptable(old(edits[..]))
    ensures text.Some? ==> text.value == Script(Cleansed(old(edits[..]))) && edits[..] == Cleansed(old(edits[..]))
  {
    hide Acceptable, ShellQuote, Block, RepoPath;
    if edits.Length == 0 { return None; }
    var ok := ValidateEdits(edits);
    if !ok { return None; }
    var b := "";
    for i := 0 to edits.Length
      invariant edits[..] == Cleansed(old(edits[..])) && b == Blocks(edits[..i])
    {
      assert edits[..i + 1][..i] == edits[..i];
      var e := edits[i];
      ghost var before := b;
      b := b + MkdirCommand(e);
      b := b + CatCommand(e);
      b := b + e.contents;
      if !(e.contents != "" && e.contents[|e.contents| - 1] == '\n') { b := b + "\n"; }
      b := b + (DELIMITER + "\n");
      BlockText(e, before, b);
    }
    assert edits[..edits.Length] == edits[..];
    var targets := JoinTargets(edits[..]);
    b := b + "for f in " + targets + "; do\n" + LOOP_BODY;
    return Some(b);
  }

  lemma BlockText(e: FileEdit, before: string, b: string)
    requires b == before + MkdirCommand(e) + CatCommand(e) + WithNewline(e.contents) + (DELIMITER + "\n")
    ensures b == before + Block(e)
  {
    hide MkdirCommand, CatCommand, WithNewline, DELIMITER;
    var m, c, w, d := MkdirCommand(e), CatCommand(e), WithNewline(e.contents), DELIMITER + "\n";
    assert m + c + w + DELIMITER + "\n" == m + c + w + d;
    assert before + m + c + w + d == before + (m + c + w + d);
  }

  // ---------------------------------------------------------------- one block runs

  lemma MkdirTail(more: string)
    ensures AtWordEnd(MKDIR_TAIL + more)
    ensures ReadLine(MKDIR_TAIL + more) == Some(([Op("||"), Word("exit", false), Word("90", false)], more))
  {
    hide ReadLine, AtWordEnd;
    var n := "\n" + more;
    NewlineFirst(more);
    PlainFirst("90", n);
    BlankFirst("90" + n);
    PlainFirst("exit", " " + ("90" + n));
    BlankFirst("exit" + (" " + ("90" + n)));
    OperatorFirst("||", " " + ("exit" + (" " + ("90" + n))));
    BlankFirst("||" + (" " + ("exit" + (" " + ("90" + n)))));
    assert [Op("||")] + ([Word("exit", false)] + ([Word("90", false)] + [])) == [Op("||"), Word("exit", false), Word("90", false)];
    assert MKDIR_TAIL + more == " " + ("||" + (" " + ("exit" + (" " + ("90" + n)))));
  }

  lemma MkdirLine(dir: string, more: string)
    ensures var l := ReadLine("mkdir -p " + ShellQuote(dir) + MKDIR_TAIL + more);
            l.Some? && l.value.1 == more && IsMakeDirectories(l.value.0) && l.value.0[2] == Word(dir, true)
  {
    hide ReadLine, AtWordEnd, ShellQuote;
    var tail := MKDIR_TAIL + more;
    MkdirTail(more);
    MkdirWords(dir, tail);
    var t :=
      [Word("mkdir", false), Word("-p", false), Word(dir, true)] + [Op("||"), Word("exit", false), Word("90", false)];
    assert t == [Word("mkdir", false), Word("-p", false), Word(dir, true), Op("||"), Word("exit", false), Word("90", false)];
    assert "mkdir -p " + ShellQuote(dir) + MKDIR_TAIL + more == "mkdir -p " + ShellQuote(dir) + tail;
  }

  lemma MkdirWords(dir: string, tail: string)
    requires AtWordEnd(tail) && ReadLine(tail).Some?
    ensures ReadLine("mkdir -p " + ShellQuote(dir) + tail)
            == Some(([Word("mkdir", false), Word("-p", false), Word(dir, true)] + ReadLine(tail).value.0, ReadLine(tail).value.1))
  {
    hide ReadLine, AtWordEnd, ShellQuote;
    var q := ShellQuote(dir) + tail;
    QuoteFirst(dir, tail);
    BlankFirst(q);
    PlainFirst("-p", " " + q);
    BlankFirst("-p" + (" " + q));
    PlainFirst("mkdir", " " + ("-p" + (" " + q)));
    var l := ReadLine(tail).value.0;
    assert [Word("mkdir", false)] + ([Word("-p", false)] + ([Word(dir, true)] + l)) == [Word("mkdir", false), Word("-p", false), Word(dir, true)] + l;
    assert "mkdir -p " + ShellQuote(dir) + tail == "mkdir" + (" " + ("-p" + (" " + q)));
  }

  lemma CatTailReads(delimiter: string, more: string)
    requires forall i :: 0 <= i < |delimiter| ==> delimiter[i] != '\''
    ensures AtWordEnd(CatTail(delimiter) + more)
    ensures ReadLine(CatTail(delimiter) + more) == Some(([Op("<<"), Word(delimiter, true)], more))
  {
    hide ReadLine, AtWordEnd, ReadWord, ReadQuoted, Escaped;
    var n := "\n" + more;
    NewlineFirst(more);
    NothingToEscape(delimiter);
    QuoteFirst(delimiter, n);
    var q := ShellQuote(delimiter) + n;
    OperatorFirst("<<", q);
    BlankFirst("<<" + q);
    assert [Op("<<")] + ([Word(delimiter, true)] + []) == [Op("<<"), Word(delimiter, true)];
    assert CatTail(delimiter) + more == " " + ("<<" + q);
  }

  lemma {:induction false} NothingToEscape(s: string)
    requires forall i :: 0 <= i < |s| ==> s[i] != '\''
    ensures Escaped(s) == s
  {
    if s != "" {
      NothingToEscape(s[1..]);
      assert s == [s[0]] + s[1..];
    }
  }

  lemma CatWords(target: string, tail: string)
    requires AtWordEnd(tail) && ReadLine(tail).Some?
    ensures ReadLine("cat > " + ShellQuote(target) + tail)
            == Some(([Word("cat", false), Op(">"), Word(target, true)] + ReadLine(tail).value.0, ReadLine(tail).value.1))
  {
    hide ReadLine, AtWordEnd, ShellQuote;
    var q := ShellQuote(target) + tail;
    QuoteFirst(target, tail);
    BlankFirst(q);
    OperatorFirst(">", " " + q);
    BlankFirst(">" + (" " + q));
    PlainFirst("cat", " " + (">" + (" " + q)));
    var l := ReadLine(tail).value.0;
    assert [Word("cat", false)] + ([Op(">")] + ([Word(target, true)] + l)) == [Word("cat", false), Op(">"), Word(target, true)] + l;
    assert "cat > " + ShellQuote(target) + tail == "cat" + (" " + (">" + (" " + q)));
  }

  lemma CatLine(target: string, delimiter: string, more: string)
    requires forall i :: 0 <= i < |delimiter| ==> delimiter[i] != '\''
    ensures var l := ReadLine("cat > " + ShellQuote(target) + CatTail(delimiter) + more);
            l.Some? && l.value.1 == more && IsCatHereDocument(l.value.0) && l.value.0[2] == Word(target, true) &&
            l.value.0[4] == Word(delimiter, true)
  {
    hide ReadLine, AtWordEnd, ShellQuote, CatTail;
    var tail := CatTail(delimiter) + more;
    CatTailReads(delimiter, more);
    CatWords(target, tail);
    var t := [Word("cat", false), Op(">"), Word(target, true)] + [Op("<<"), Word(delimiter, true)];
    assert t == [Word("cat", false), Op(">"), Word(target, true), Op("<<"), Word(delimiter, true)];
    assert "cat > " + ShellQuote(target) + CatTail(delimiter) + more == "cat > " + ShellQuote(target) + tail;
  }

  lemma NotMakeDirectories(t: seq<Token>)
    requires IsCatHereDocument(t)
    ensures t != [] && !IsMakeDirectories(t)
  {
  }

  lemma DelimiterIsOneLine()
    ensures forall i :: 0 <= i < |DELIMITER| ==> DELIMITER[i] != '\n' && DELIMITER[i] != '\''
    ensures Trim(DELIMITER) == DELIMITER
  {
  }

  /** One here-document block creates the directories and then writes exactly the contents. */
  lemma BlockRuns(e: FileEdit, rest: string, fs: Fs)
    requires NoDelimiterLine(e.contents)
    requires var dir := Components(DirOf(Target(e))); MakeDirectories(fs, dir, |dir|).Some?
    ensures var dir := Components(DirOf(Target(e)));
            Run(Block(e) + rest, fs)
            == Run(rest, Write(MakeDirectories(fs, dir, |dir|).value, Components(Target(e)), WithNewline(e.contents)))
  {
    hide ReadLine, ReadHereDocument, ShellQuote, DirOf, Target, WithNewline, Components, MakeDirectories, Write, Lines,
         Trim, MKDIR_TAIL, CatTail, DELIMITER, IsMakeDirectories,
         IsCatHereDocument, IsForLoop;
    var dir := Components(DirOf(Target(e)));
    var made := MakeDirectories(fs, dir, |dir|).value;
    var document := WithNewline(e.contents) + DELIMITER + "\n" + rest;
    var cat := "cat > " + ShellQuote(Target(e)) + CatTail(DELIMITER) + document;
    var all := "mkdir -p " + ShellQuote(DirOf(Target(e))) + MKDIR_TAIL + cat;
    DelimiterIsOneLine();
    MkdirLine(DirOf(Target(e)), cat);
    CatLine(Target(e), DELIMITER, document);
    SafeLines(e.contents);
    HereDocumentReadsBack(e.contents, DELIMITER, rest);
    BlockPieces(e, rest);
    RunMakeDirectories(all, fs);
    RunCat(cat, made);
  }

  lemma SafeLines(contents: string)
    requires NoDelimiterLine(contents)
    ensures forall i :: 0 <= i < |Lines(contents)| ==> Lines(contents)[i] != DELIMITER
  {
    DelimiterIsOneLine();
  }

  lemma BlockPieces(e: FileEdit, rest: string)
    ensures Block(e) + rest
            == "mkdir -p " + ShellQuote(DirOf(Target(e))) + MKDIR_TAIL +
               ("cat > " + ShellQuote(Target(e)) + CatTail(DELIMITER) + (WithNewline(e.contents) + DELIMITER + "\n" + rest))
  {
    hide ShellQuote, DirOf, Target, WithNewline, CatTail, MKDIR_TAIL, DELIMITER;
  }

  lemma RunMakeDirectories(s: string, fs: Fs)
    requires ReadLine(s).Some? && IsMakeDirectories(ReadLine(s).value.0)
    requires var p := Components(ReadLine(s).value.0[2].text); MakeDirectories(fs, p, |p|).Some?
    ensures var p := Components(ReadLine(s).value.0[2].text);
            Run(s, fs) == Run(ReadLine(s).value.1, MakeDirectories(fs, p, |p|).value)
  {
    hide ReadLine, MakeDirectories, Components, ReadHereDocument;
  }

  lemma RunCat(s: string, fs: Fs)
    requires ReadLine(s).Some? && IsCatHereDocument(ReadLine(s).value.0)
    requires ReadHereDocument(ReadLine(s).value.1, ReadLine(s).value.0[4].text).Some?
    ensures var t := ReadLine(s).value.0;
            var d := ReadHereDocument(ReadLine(s).value.1, t[4].text).value;
            Run(s, fs) == Run(d.1, Write(fs, Components(t[2].text), d.0))
  {
    NotMakeDirectories(ReadLine(s).value.0);
    hide ReadLine, MakeDirectories, Components, ReadHereDocument, Write, IsMakeDirectories, IsForLoop;
  }
}
