/** Running the generated script: exactly the edited files change. */
module RemediationEffect {
  import opened Basics
  import opened Shell
  import opened Remediation

  // ---------------------------------------------------------------- where an edit goes

  function Place(e: FileEdit): Path {
    ["workspace"] + Components(e.path)
  }

  lemma TargetComponents(e: FileEdit)
    ensures Components(Target(e)) == Place(e)
  {
    var rest := "/" + e.path;
    assert Target(e) == "/" + ("workspace" + rest) && ("/" + ("workspace" + rest))[1..] == "workspace" + rest;
    SplitAppend("workspace", rest, "");
    assert "" + "workspace" == "workspace" && rest[1..] == e.path;
    assert [] + Split("workspace" + rest, "") == Split("workspace" + rest, "");
  }

  lemma DirComponents(e: FileEdit)
    requires Ordinary(Components(e.path))
    ensures Components(DirOf(Target(e))) == Place(e)[..|Place(e)| - 1]
  {
    TargetComponents(e);
    var dir := Place(e)[..|Place(e)| - 1];
    WorkspaceNamed();
    forall i | 0 <= i < |dir| ensures Named(dir[i]) {
      if i > 0 { assert dir[i] == Components(e.path)[i - 1]; }
    }
    hide Named;
    JoinSplits(dir);
    assert ("/" + Join(dir))[1..] == Join(dir);
    assert [] + Split(Join(dir), "") == Split(Join(dir), "");
  }

  lemma WorkspaceNamed()
    ensures Named("workspace")
  {
  }

  // ---------------------------------------------------------------- the closing loop

  function Words(edits: seq<FileEdit>): seq<Token> {
    if edits == [] then [] else [Word(Target(edits[0]), true)] + Words(edits[1..])
  }

  lemma {:induction false} WordsAt(edits: seq<FileEdit>)
    ensures |Words(edits)| == |edits| && forall i :: 0 <= i < |edits| ==>
                                           Words(edits)[i] == Word(Target(edits[i]), true)
  {
    if edits != [] { WordsAt(edits[1..]); }
  }

  /** One quoted target, a blank and a line already read. */
  lemma TargetThen(t: string, more: string, words: seq<Token>, rest: string)
    requires ReadLine(more) == Some((words, rest))
    ensures ReadLine(ShellQuote(t) + (" " + more)) == Some(([Word(t, true)] + words, rest))
  {
    hide ReadLine, AtWordEnd, ShellQuote;
    BlankFirst(more);
    QuoteFirst(t, " " + more);
  }

  lemma TargetsSplit(edits: seq<FileEdit>, tail: string)
    requires |edits| > 1
    ensures Targets(edits) + tail == ShellQuote(Target(edits[0])) + (" " + (Targets(edits[1..]) + tail))
  {
    hide ShellQuote, Target;
  }

  lemma {:induction false} TargetsLine(edits: seq<FileEdit>, tail: string)
    requires edits != [] && AtWordEnd(tail) && ReadLine(tail).Some?
    ensures ReadLine(Targets(edits) + tail) == Some((Words(edits) + ReadLine(tail).value.0, ReadLine(tail).value.1))
  {
    hide ReadLine, AtWordEnd, ShellQuote, Target;
    var t := Target(edits[0]);
    var l := ReadLine(tail).value.0;
    if |edits| == 1 {
      QuoteFirst(t, tail);
      assert edits[1..] == [] && Words(edits) == [Word(t, true)];
    } else {
      hide Targets;
      TargetsLine(edits[1..], tail);
      TargetThen(t, Targets(edits[1..]) + tail, Words(edits[1..]) + l, ReadLine(tail).value.1);
      TargetsSplit(edits, tail);
      assert [Word(t, true)] + (Words(edits[1..]) + l) == Words(edits) + l;
    }
  }

  lemma DoTail(more: string)
    ensures AtWordEnd("; do\n" + more) && ReadLine("; do\n" + more) == Some(([Op(";"), Word("do", false)], more))
  {
    hide ReadLine, AtWordEnd;
    var n := "\n" + more;
    NewlineFirst(more);
    PlainFirst("do", n);
    BlankFirst("do" + n);
    OperatorFirst(";", " " + ("do" + n));
    assert [Op(";")] + ([Word("do", false)] + []) == [Op(";"), Word("do", false)];
    assert "; do\n" + more == ";" + (" " + ("do" + n));
  }

  /** One plain word, a blank and a line already read. */
  lemma PlainThen(w: string, more: string, words: seq<Token>, rest: string)
    requires w != "" && (forall i :: 0 <= i < |w| ==> Plain(w[i])) && ReadLine(more) == Some((words, rest))
    ensures ReadLine(w + (" " + more)) == Some(([Word(w, false)] + words, rest))
  {
    hide ReadLine, AtWordEnd, Plain;
    BlankFirst(more);
    PlainFirst(w, " " + more);
  }

  lemma ForText(tail: string)
    ensures "for f in " + tail == "for" + (" " + ("f" + (" " + ("in" + (" " + tail)))))
  {
  }

  lemma ForWords(tail: string)
    requires ReadLine(tail).Some?
    ensures ReadLine("for f in " + tail)
            == Some(([Word("for", false), Word("f", false), Word("in", false)] + ReadLine(tail).value.0, ReadLine(tail).value.1))
  {
    var l, rest := ReadLine(tail).value.0, ReadLine(tail).value.1;
    hide ReadLine, AtWordEnd;
    PlainThen("in", tail, l, rest);
    PlainThen("f", "in" + (" " + tail), [Word("in", false)] + l, rest);
    PlainThen("for", "f" + (" " + ("in" + (" " + tail))), [Word("f", false)] + ([Word("in", false)] + l), rest);
    ForText(tail);
    assert [Word("for", false)] + ([Word("f", false)] + ([Word("in", false)] + l)) == [Word("for", false), Word("f", false), Word("in", false)] + l;
  }

  function Closing(edits: seq<FileEdit>): string {
    "for f in " + Targets(edits) + "; do\n" + LOOP_BODY
  }

  lemma LoopTokens(words: seq<Token>)
    requires forall i :: 0 <= i < |words| ==> words[i].Word?
    ensures var t := [Word("for", false), Word("f", false), Word("in", false)] + (words + [Op(";"), Word("do", false)]);
            IsForLoop(t) && !IsMakeDirectories(t) && !IsCatHereDocument(t) && t[3..|t| - 2] == words
  {
    var t := [Word("for", false), Word("f", false), Word("in", false)] + (words + [Op(";"), Word("do", false)]);
    assert t[0].text == "for" && "for"[0] == 'f' && "mkdir"[0] == 'm' && "cat"[0] == 'c';
    assert forall i :: 3 <= i < |t| - 2 ==> t[i] == words[i - 3];
  }

  lemma RunLoop(s: string, fs: Fs)
    requires ReadLine(s).Some? && ReadLine(s).value.1 == LOOP_BODY
    requires var t := ReadLine(s).value.0; IsForLoop(t) && !IsMakeDirectories(t) && !IsCatHereDocument(t)
    ensures var t := ReadLine(s).value.0; Run(s, fs) == Some(Outcome(fs, if AllExist(fs, t[3..|t| - 2]) then 0 else 91))
  {
    hide ReadLine, LOOP_BODY, IsMakeDirectories, IsCatHereDocument, AllExist;
  }

  /** The closing loop exits with 0 exactly when every target exists. */
  lemma ClosingRuns(edits: seq<FileEdit>, fs: Fs)
    requires edits != []
    ensures Run(Closing(edits), fs)
            == Some(Outcome(fs, if forall i :: 0 <= i < |edits| ==> Place(edits[i]) in fs then 0 else 91))
  {
    hide ReadLine, AtWordEnd, LOOP_BODY, Targets, Words, Target, Place, Components, Run, AllExist, IsForLoop,
         IsMakeDirectories, IsCatHereDocument;
    DoTail(LOOP_BODY);
    var tail := "; do\n" + LOOP_BODY;
    TargetsLine(edits, tail);
    ForWords(Targets(edits) + tail);
    assert Closing(edits) == "for f in " + (Targets(edits) + tail);
    WordsAt(edits);
    LoopTokens(Words(edits));
    RunLoop(Closing(edits), fs);
    WordsExist(edits, fs);
  }

  lemma WordsExist(edits: seq<FileEdit>, fs: Fs)
    ensures AllExist(fs, Words(edits)) <==> forall i :: 0 <= i < |edits| ==> Place(edits[i]) in fs
  {
    WordsAt(edits);
    hide Components, Target;
    forall i | 0 <= i < |edits| ensures Components(Target(edits[i])) == Place(edits[i]) { TargetComponents(edits[i]); }
  }

  // ---------------------------------------------------------------- the file system

  /** Nothing stands in the way of writing a file here: no file above it, no directory at it. */
  predicate Free(fs: Fs, p: Path) {
    && (forall k :: 0 < k < |p| ==> !(p[..k] in fs && fs[p[..k]].File?))
    && !(p in fs && fs[p].Directory?)
  }

  predicate ProperPrefix(q: Path, p: Path) {
    0 < |q| < |p| && q == p[..|q|]
  }

  lemma {:induction false} MakeDirectoriesEffect(fs: Fs, p: Path, n: nat)
    requires n <= |p| && forall k :: 0 < k <= n ==> !(p[..k] in fs && fs[p[..k]].File?)
    ensures MakeDirectories(fs, p, n).Some?
    ensures forall q :: q in MakeDirectories(fs, p, n).value <==> q in fs || (0 < |q| <= n && q == p[..|q|])
    ensures forall q :: q in fs ==> MakeDirectories(fs, p, n).value[q] == fs[q]
    ensures forall q :: q in MakeDirectories(fs, p, n).value && q !in fs ==>
              MakeDirectories(fs, p, n).value[q].Directory?
  {
    if n > 0 {
      MakeDirectoriesEffect(fs, p, n - 1);
      var before := MakeDirectories(fs, p, n - 1).value;
      assert |p[..n]| == n;
    }
  }

  /** With nothing in the way the directories above a place are made, and only those. */
  lemma ParentsMade(fs: Fs, p: Path)
    requires Free(fs, p) && p != []
    ensures MakeDirectories(fs, p[..|p| - 1], |p| - 1).Some?
    ensures var made := MakeDirectories(fs, p[..|p| - 1], |p| - 1).value;
            && (forall q :: q in made <==> q in fs || ProperPrefix(q, p))
            && (forall q :: q in fs ==> made[q] == fs[q])
            && (forall q :: q in made && q !in fs ==> made[q].Directory?)
  {
    var dir := p[..|p| - 1];
    forall k | 0 < k <= |dir|
      ensures dir[..k] == p[..k] && !(dir[..k] in fs && fs[dir[..k]].File?)
    {
      assert dir[..k] == p[..k];
    }
    MakeDirectoriesEffect(fs, dir, |dir|);
    forall q ensures (0 < |q| <= |dir| && q == dir[..|q|]) <==> ProperPrefix(q, p) {
      if 0 < |q| <= |dir| { assert dir[..|q|] == p[..|q|]; }
    }
  }

  /** The file system after one edit. */
  function AfterOne(fs: Fs, e: FileEdit): Fs
    requires Free(fs, Place(e))
  {
    var p := Place(e);
    ParentsMade(fs, p);
    Write(MakeDirectories(fs, p[..|p| - 1], |p| - 1).value, p, WithNewline(e.contents))
  }

  lemma ParentWritable(fs: Fs, p: Path)
    requires Free(fs, p) && p != [] && MakeDirectories(fs, p[..|p| - 1], |p| - 1).Some?
    ensures Writable(MakeDirectories(fs, p[..|p| - 1], |p| - 1).value, p)
  {
    ParentsMade(fs, p);
    hide MakeDirectories;
    var dir := p[..|p| - 1];
    if dir != [] {
      assert ProperPrefix(dir, p);
      assert p[..|dir|] == dir;
    }
  }

  lemma AfterOneEffect(fs: Fs, e: FileEdit)
    requires Free(fs, Place(e))
    ensures forall q :: q in AfterOne(fs, e) <==> q in fs || q == Place(e) || ProperPrefix(q, Place(e))
    ensures AfterOne(fs, e)[Place(e)] == File(WithNewline(e.contents))
    ensures forall q :: q in fs && q != Place(e) ==> AfterOne(fs, e)[q] == fs[q]
    ensures forall q :: q in AfterOne(fs, e) && q !in fs && q != Place(e) ==> AfterOne(fs, e)[q].Directory?
  {
    assert Place(e) != [];
    hide MakeDirectories, Place, WithNewline, Free, ProperPrefix, Writable;
    ParentsMade(fs, Place(e));
    ParentWritable(fs, Place(e));
  }

  ghost predicate Disjoint(edits: seq<FileEdit>) {
    forall i, j :: 0 <= i < |edits| && 0 <= j < |edits| && i != j ==>
      Place(edits[i]) != Place(edits[j]) && !ProperPrefix(Place(edits[i]), Place(edits[j]))
  }

  ghost predicate AllFree(fs: Fs, edits: seq<FileEdit>) {
    forall i :: 0 <= i < |edits| ==> Free(fs, Place(edits[i]))
  }

  lemma StillFree(fs: Fs, e: FileEdit, p: Path)
    requires Free(fs, Place(e)) && Free(fs, p) && p != Place(e) && !ProperPrefix(Place(e), p)
    requires !ProperPrefix(p, Place(e))
    ensures Free(AfterOne(fs, e), p)
  {
    AfterOneEffect(fs, e);
    var fs' := AfterOne(fs, e);
    hide AfterOne, Place;
    forall k | 0 < k < |p| ensures !(p[..k] in fs' && fs'[p[..k]].File?) {
      assert |p[..k]| == k;
    }
  }

  /** The file system after all of them, in order. */
  ghost function AfterAll(fs: Fs, edits: seq<FileEdit>): Fs
    requires AllFree(fs, edits) && Disjoint(edits)
    decreases |edits|
  {
    if edits == [] then fs
    else (RestFree(fs, edits); AfterAll(AfterOne(fs, edits[0]), edits[1..]))
  }

  lemma RestFree(fs: Fs, edits: seq<FileEdit>)
    requires AllFree(fs, edits) && Disjoint(edits) && edits != []
    ensures AllFree(AfterOne(fs, edits[0]), edits[1..]) && Disjoint(edits[1..])
  {
    hide Free, Place, AfterOne, ProperPrefix;
    var rest := edits[1..];
    forall i | 0 <= i < |rest| ensures Free(AfterOne(fs, edits[0]), Place(rest[i])) {
      assert rest[i] == edits[i + 1];
      StillFree(fs, edits[0], Place(edits[i + 1]));
    }
  }

  ghost predicate IsTarget(edits: seq<FileEdit>, q: Path) {
    exists i :: 0 <= i < |edits| && Place(edits[i]) == q
  }

  ghost predicate AboveTarget(edits: seq<FileEdit>, q: Path) {
    exists i :: 0 <= i < |edits| && ProperPrefix(q, Place(edits[i]))
  }

  ghost predicate AllWritten(fs': Fs, edits: seq<FileEdit>) {
    forall i :: 0 <= i < |edits| ==>
      Place(edits[i]) in fs' && fs'[Place(edits[i])] == File(WithNewline(edits[i].contents))
  }

  ghost predicate OthersKept(fs: Fs, fs': Fs, edits: seq<FileEdit>) {
    forall q :: q in fs && !IsTarget(edits, q) ==> q in fs' && fs'[q] == fs[q]
  }

  ghost predicate OnlyParentsAdded(fs: Fs, fs': Fs, edits: seq<FileEdit>) {
    forall q :: q in fs' && q !in fs && !IsTarget(edits, q) ==> fs'[q].Directory? && AboveTarget(edits, q)
  }

  /** Every target holds its contents; everything else is as before, but for the directories above a target. */
  ghost predicate ExactlyTheEdits(fs: Fs, fs': Fs, edits: seq<FileEdit>) {
    AllWritten(fs', edits) && OthersKept(fs, fs', edits) && OnlyParentsAdded(fs, fs', edits)
  }

  lemma TargetSplit(edits: seq<FileEdit>, q: Path)
    requires edits != []
    ensures IsTarget(edits, q) <==> Place(edits[0]) == q || IsTarget(edits[1..], q)
    ensures AboveTarget(edits, q) <==> ProperPrefix(q, Place(edits[0])) || AboveTarget(edits[1..], q)
  {
    hide Place;
    var rest := edits[1..];
    assert forall i :: 0 <= i < |rest| ==> rest[i] == edits[i + 1];
    if IsTarget(edits, q) {
      var i :| 0 <= i < |edits| && Place(edits[i]) == q;
      if i > 0 { assert Place(rest[i - 1]) == q; }
    }
    if AboveTarget(edits, q) {
      var i :| 0 <= i < |edits| && ProperPrefix(q, Place(edits[i]));
      if i > 0 { assert ProperPrefix(q, Place(rest[i - 1])); }
    }
  }

  lemma WrittenOneMore(fs: Fs, fs': Fs, edits: seq<FileEdit>)
    requires edits != [] && Disjoint(edits) && Free(fs, Place(edits[0]))
    requires AllWritten(fs', edits[1..]) && OthersKept(AfterOne(fs, edits[0]), fs', edits[1..])
    ensures AllWritten(fs', edits)
  {
    hide Disjoint;
    AfterOneEffect(fs, edits[0]);
    FirstIsNotLater(edits);
    hide Place, AfterOne, WithNewline, Free, IsTarget;
    var rest := edits[1..];
    forall i | 0 <= i < |edits|
      ensures Place(edits[i]) in fs' && fs'[Place(edits[i])] == File(WithNewline(edits[i].contents))
    {
      if i > 0 { assert rest[i - 1] == edits[i]; }
    }
  }

  lemma KeptOneMore(fs: Fs, fs': Fs, edits: seq<FileEdit>)
    requires edits != [] && Free(fs, Place(edits[0])) && OthersKept(AfterOne(fs, edits[0]), fs', edits[1..])
    ensures OthersKept(fs, fs', edits)
  {
    AfterOneEffect(fs, edits[0]);
    hide Place, AfterOne, WithNewline, Free, IsTarget, ProperPrefix;
    forall q | q in fs && !IsTarget(edits, q) ensures q in fs' && fs'[q] == fs[q] { TargetSplit(edits, q); }
  }

  lemma AddedOneMore(fs: Fs, fs': Fs, edits: seq<FileEdit>)
    requires edits != [] && Free(fs, Place(edits[0]))
    requires OthersKept(AfterOne(fs, edits[0]), fs', edits[1..])
    requires OnlyParentsAdded(AfterOne(fs, edits[0]), fs', edits[1..])
    ensures OnlyParentsAdded(fs, fs', edits)
  {
    AfterOneEffect(fs, edits[0]);
    hide Place, AfterOne, WithNewline, Free, IsTarget, AboveTarget, ProperPrefix;
    forall q | q in fs' && q !in fs && !IsTarget(edits, q)
      ensures fs'[q].Directory? && AboveTarget(edits, q)
    {
      TargetSplit(edits, q);
    }
  }

  lemma {:induction false} AfterAllEffect(fs: Fs, edits: seq<FileEdit>)
    requires AllFree(fs, edits) && Disjoint(edits)
    ensures ExactlyTheEdits(fs, AfterAll(fs, edits), edits)
    decreases |edits|
  {
    hide Place, AfterOne, Free, ProperPrefix;
    if edits != [] {
      RestFree(fs, edits);
      AfterAllEffect(AfterOne(fs, edits[0]), edits[1..]);
      hide AllWritten, OthersKept, OnlyParentsAdded, Disjoint;
      var fs' := AfterAll(fs, edits);
      WrittenOneMore(fs, fs', edits);
      KeptOneMore(fs, fs', edits);
      AddedOneMore(fs, fs', edits);
    }
  }

  lemma FirstIsNotLater(edits: seq<FileEdit>)
    requires edits != [] && Disjoint(edits)
    ensures !IsTarget(edits[1..], Place(edits[0]))
  {
    hide Place;
    var rest := edits[1..];
    assert forall i :: 0 <= i < |rest| ==> rest[i] == edits[i + 1];
  }

  // ---------------------------------------------------------------- the whole script

  lemma {:induction false} BlocksFromFront(edits: seq<FileEdit>)
    requires edits != []
    ensures Blocks(edits) == Block(edits[0]) + Blocks(edits[1..])
  {
    hide Block;
    var n := |edits| - 1;
    if n == 0 {
      assert edits[..0] == [] && edits[1..] == [];
    } else {
      BlocksFromFront(edits[..n]);
      assert edits[..n][1..] == edits[1..][..n - 1];
      assert edits[1..][n - 1] == edits[n];
      var first, middle, last := Block(edits[0]), Blocks(edits[..n][1..]), Block(edits[n]);
      assert Blocks(edits) == (first + middle) + last;
      assert (first + middle) + last == first + (middle + last);
    }
  }

  ghost predicate WellWritten(edits: seq<FileEdit>) {
    forall i :: 0 <= i < |edits| ==> Ordinary(Components(edits[i].path)) && NoDelimiterLine(edits[i].contents)
  }

  lemma {:induction false} BlocksRun(edits: seq<FileEdit>, rest: string, fs: Fs)
    requires WellWritten(edits) && AllFree(fs, edits) && Disjoint(edits)
    ensures Run(Blocks(edits) + rest, fs) == Run(rest, AfterAll(fs, edits))
    decreases |edits|
  {
    hide Run, Block, Free, Place, Ordinary, NoDelimiterLine, ProperPrefix, AfterOne;
    if edits == [] {
      assert Blocks(edits) + rest == rest;
    } else {
      RestFree(fs, edits);
      BlocksFromFront(edits);
      FirstBlock(edits[0], Blocks(edits[1..]) + rest, fs);
      assert Blocks(edits) + rest == Block(edits[0]) + (Blocks(edits[1..]) + rest);
      BlocksRun(edits[1..], rest, AfterOne(fs, edits[0]));
    }
  }

  lemma FirstBlock(e: FileEdit, rest: string, fs: Fs)
    requires Ordinary(Components(e.path)) && NoDelimiterLine(e.contents) && Free(fs, Place(e))
    ensures Run(Block(e) + rest, fs) == Run(rest, AfterOne(fs, e))
  {
    hide Run, Block, Ordinary, NoDelimiterLine, MakeDirectories, Components, DirOf, Write, WithNewline;
    DirComponents(e);
    TargetComponents(e);
    ParentsMade(fs, Place(e));
    hide Place;
    BlockRuns(e, rest, fs);
  }

  lemma CleansedIsWritable(edits: seq<FileEdit>)
    requires Acceptable(edits)
    ensures WellWritten(Cleansed(edits))
  {
    hide RepoPath, NoDelimiterLine, Ordinary;
    forall i | 0 <= i < |edits|
      ensures Ordinary(Components(RepoPath(edits[i].path).value))
    {
      RepoPathIsOrdinary(edits[i].path);
    }
  }

  /**
   * Running what ApplyCommand returns succeeds, leaves each edited path with exactly the proposed contents (one final
   * newline added when missing) and writes no other file.
   */
  lemma ScriptWritesExactlyTheEdits(proposed: seq<FileEdit>, fs: Fs)
    requires proposed != [] && Acceptable(proposed)
    requires var edits := Cleansed(proposed); Disjoint(edits) && AllFree(fs, edits)
    ensures var edits := Cleansed(proposed);
            && Run(Script(edits), fs) == Some(Outcome(AfterAll(fs, edits), 0))
            && ExactlyTheEdits(fs, AfterAll(fs, edits), edits)
  {
    var edits := Cleansed(proposed);
    CleansedIsWritable(proposed);
    hide Run, Blocks, Targets, Acceptable, AllFree, Disjoint, WellWritten, LOOP_BODY, Cleansed, Script, Closing,
         AfterAll, Place, WithNewline, IsTarget, AboveTarget;
    BlocksRun(edits, Closing(edits), fs);
    ClosingRuns(edits, AfterAll(fs, edits));
    AfterAllEffect(fs, edits);
    ScriptSplits(edits);
  }

  lemma ScriptSplits(edits: seq<FileEdit>)
    ensures Script(edits) == Blocks(edits) + Closing(edits)
  {
    hide Blocks, Targets, LOOP_BODY;
  }
}
