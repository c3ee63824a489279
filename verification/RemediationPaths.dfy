/** Two exact conditions on the generated script: cleaning a path twice, and null bytes. */
module RemediationPaths {
  import opened Basics
  import opened Shell
  import opened Remediation
  import opened RemediationEffect

  // ---------------------------------------------------------------- cleaning twice

  lemma {:induction false} OrdinaryIsClean(parts: Path)
    requires forall i :: 0 <= i < |parts| ==> Named(parts[i]) && parts[i] != ".."
    ensures CleanParts(parts) == parts
  {
    hide Named;
    if parts != [] {
      var n := |parts| - 1;
      OrdinaryIsClean(parts[..n]);
      NamedIsNotDot(parts[n]);
      assert parts == parts[..n] + [parts[n]];
    }
  }

  lemma NamedIsNotDot(part: string)
    requires Named(part)
    ensures part != "."
  {
  }


  /** Bytes of the parts with one slash between neighbours. */
  function Width(parts: Path): nat {
    if parts == [] then 0 else Width(parts[..|parts| - 1]) + |parts[|parts| - 1]| + 1
  }

  lemma {:induction false} WidthFront(parts: Path)
    requires parts != []
    ensures Width(parts) == |parts[0]| + 1 + Width(parts[1..])
  {
    var n := |parts| - 1;
    if n == 0 {
      assert parts[..0] == [] && parts[1..] == [];
    } else {
      WidthFront(parts[..n]);
      assert parts[..n][1..] == parts[1..][..n - 1];
    }
  }

  lemma {:induction false} JoinWidth(parts: Path)
    requires parts != []
    ensures |Join(parts)| + 1 == Width(parts)
  {
    WidthFront(parts);
    if |parts| == 1 { assert parts[1..] == []; } else { JoinWidth(parts[1..]); }
  }

  lemma {:induction false} SplitWidth(p: string, current: string)
    ensures Width(Split(p, current)) <= |current| + |p| + 1
    decreases |p|
  {
    if p == "" {
      assert Split(p, current) == if current == "" then [] else [current];
      assert [current][..0] == [];
    } else if p[0] == '/' {
      SplitWidth(p[1..], "");
      if current != "" {
        WidthFront([current] + Split(p[1..], ""));
        assert ([current] + Split(p[1..], ""))[1..] == Split(p[1..], "");
      } else {
        assert [] + Split(p[1..], "") == Split(p[1..], "");
      }
    } else {
      SplitWidth(p[1..], current + [p[0]]);
    }
  }

  lemma {:induction false} CleanWidth(parts: Path)
    ensures Width(CleanParts(parts)) <= Width(parts)
  {
    if parts != [] {
      var n := |parts| - 1;
      CleanWidth(parts[..n]);
      var acc := CleanParts(parts[..n]);
      assert (acc + [parts[n]])[..|acc|] == acc;
    }
  }

  /** Cleaning never lengthens a path. */
  lemma RepoPathShortens(p: string)
    requires RepoPath(p).Some?
    ensures |RepoPath(p).value| <= |Trim(p)|
  {
    var t := Trim(p);
    SplitWidth(t, "");
    CleanWidth(Components(t));
    var parts := CleanParts(Components(t));
    if parts != [] { JoinWidth(parts); }
    hide CleanParts, Split, Join, Width;
  }

  /**
   * ParseProposal and ApplyCommand both clean every path: the second time changes nothing exactly when no blank edge is
   * left.
   */
  lemma CleaningTwiceIsExact(p: string)
    requires RepoPath(p).Some?
    ensures var clean := RepoPath(p).value; RepoPath(clean) == Some(clean) <==> Trim(clean) == clean
  {
    var clean := RepoPath(p).value;
    RepoPathIsOrdinary(p);
    hide Trim, Join, CleanParts;
    if Trim(clean) == clean {
      OrdinaryIsClean(Components(clean));
      CleanAgain(p);
    } else if RepoPath(clean).Some? {
      RepoPathShortens(clean);
      TrimShortens(clean);
    }
  }

  lemma TrimShortens(s: string)
    ensures Trim(s) != s ==> |Trim(s)| < |s|
  {
  }

  lemma CleanAgain(p: string)
    requires RepoPath(p).Some? && Trim(RepoPath(p).value) == RepoPath(p).value
    requires CleanParts(Components(RepoPath(p).value)) == Components(RepoPath(p).value) != []
    ensures RepoPath(RepoPath(p).value) == Some(RepoPath(p).value)
  {
    var clean := RepoPath(p).value;
    RepoPathIsOrdinary(p);
    var parts := CleanParts(Components(Trim(p)));
    NoNullClean(p);
    hide CleanParts, Trim, Components;
    JoinFirst(parts);
    assert clean == Join(parts);
  }

  lemma JoinFirst(parts: Path)
    requires Ordinary(parts)
    ensures Join(parts) != "" && Join(parts)[0] != '/'
  {
    assert Named(parts[0]);
  }

  lemma OneComponent(part: string)
    requires Named(part)
    ensures Components(part) == [part]
  {
    SplitAppend(part, "", "");
    assert part + "" == part && "" + part == part;
  }

  lemma DotThen(part: string)
    requires Named(part) && part != ".."
    ensures Components("./" + part) == [".", part] && CleanParts([".", part]) == [part] && CleanParts([part]) == [part]
  {
    var rest := "/" + part;
    SplitAppend(".", rest, "");
    OneComponent(part);
    assert "./" + part == "." + rest && "" + "." == "." && rest[1..] == part;
    assert [".", part][..1] == ["."] && ["."][..0] == [] && [part][..0] == [];
  }

  /** The two passes can differ: the path that was compared with the checkout is then not the path that is written. */
  lemma CleaningTwiceCanDiffer()
    ensures RepoPath("./ y") == Some(" y") && RepoPath(" y") == Some("y")
  {
    assert Named(" y") && Named("y") && " y"[1..] == "y" && "./" + " y" == "./ y";
    DotThen(" y");
    DotThen("y");
    OneComponent("y");
    assert Trim("y") == "y" && Trim(" y") == "y" && Trim("./ y") == "./ y";
    hide Components, CleanParts, Trim;
  }

  // ---------------------------------------------------------------- null bytes

  predicate NoNull(s: string) {
    '\0' !in s
  }

  lemma {:induction false} SplitNoNull(p: string, current: string)
    requires NoNull(p) && NoNull(current)
    ensures forall i :: 0 <= i < |Split(p, current)| ==> NoNull(Split(p, current)[i])
    decreases |p|
  {
    if p != "" {
      if p[0] == '/' { SplitNoNull(p[1..], ""); } else { SplitNoNull(p[1..], current + [p[0]]); }
    }
  }

  lemma {:induction false} CleanNoNull(parts: Path)
    requires forall i :: 0 <= i < |parts| ==> NoNull(parts[i])
    ensures forall i :: 0 <= i < |CleanParts(parts)| ==> NoNull(CleanParts(parts)[i])
  {
    if parts != [] { CleanNoNull(parts[..|parts| - 1]); }
  }

  lemma {:induction false} JoinNoNull(parts: Path)
    requires forall i :: 0 <= i < |parts| ==> NoNull(parts[i])
    ensures NoNull(Join(parts))
  {
    if |parts| > 1 { JoinNoNull(parts[1..]); }
  }

  lemma NoNullClean(p: string)
    requires RepoPath(p).Some?
    ensures NoNull(RepoPath(p).value)
  {
    SplitNoNull(Trim(p), "");
    CleanNoNull(Components(Trim(p)));
    JoinNoNull(CleanParts(Components(Trim(p))));
  }

  lemma {:induction false} EscapedNoNull(s: string)
    requires NoNull(s)
    ensures NoNull(Escaped(s))
  {
    if s != "" { EscapedNoNull(s[1..]); }
  }

  lemma QuoteNoNull(s: string)
    requires NoNull(s)
    ensures NoNull(ShellQuote(s))
  {
    EscapedNoNull(s);
  }

  lemma DirNoNull(e: FileEdit)
    requires NoNull(e.path)
    ensures NoNull(Target(e)) && NoNull(DirOf(Target(e)))
  {
    var c := Components(Target(e));
    SplitNoNull(Target(e), "");
    if c != [] { JoinNoNull(c[..|c| - 1]); }
  }

  lemma CommandsNoNull(e: FileEdit)
    requires NoNull(e.path)
    ensures NoNull(MkdirCommand(e)) && NoNull(CatCommand(e))
  {
    DirNoNull(e);
    QuoteNoNull(Target(e));
    QuoteNoNull(DirOf(Target(e)));
    hide ShellQuote, DirOf, Target, MkdirCommand, CatCommand;
    MkdirNoNull(e);
    CatNoNull(e);
  }

  lemma MkdirNoNull(e: FileEdit)
    requires NoNull(ShellQuote(DirOf(Target(e))))
    ensures NoNull(MkdirCommand(e))
  {
    hide ShellQuote, DirOf, Target;
  }

  lemma CatNoNull(e: FileEdit)
    requires NoNull(ShellQuote(Target(e)))
    ensures NoNull(CatCommand(e))
  {
    hide ShellQuote, DirOf, Target;
  }

  lemma NewlineNoNull(s: string)
    ensures NoNull(WithNewline(s)) <==> NoNull(s)
  {
  }

  lemma BlockNoNull(e: FileEdit)
    requires NoNull(e.path)
    ensures NoNull(Block(e)) <==> NoNull(e.contents)
  {
    CommandsNoNull(e);
    NewlineNoNull(e.contents);
    DelimiterNoNull();
    hide MkdirCommand, CatCommand, WithNewline, NoNull, DELIMITER;
    NoNullConcat(MkdirCommand(e), CatCommand(e));
    NoNullConcat(MkdirCommand(e) + CatCommand(e), WithNewline(e.contents));
    NoNullConcat(MkdirCommand(e) + CatCommand(e) + WithNewline(e.contents), DELIMITER);
    NoNullConcat(MkdirCommand(e) + CatCommand(e) + WithNewline(e.contents) + DELIMITER, "\n");
  }

  lemma DelimiterNoNull()
    ensures NoNull(DELIMITER) && NoNull("\n")
  {
  }

  lemma {:induction false} BlocksNoNull(edits: seq<FileEdit>)
    requires forall i :: 0 <= i < |edits| ==> NoNull(edits[i].path)
    ensures NoNull(Blocks(edits)) <==> forall i :: 0 <= i < |edits| ==> NoNull(edits[i].contents)
  {
    hide Block;
    if edits != [] {
      BlocksNoNull(edits[..|edits| - 1]);
      BlockNoNull(edits[|edits| - 1]);
    }
  }

  lemma {:induction false} TargetsNoNull(edits: seq<FileEdit>)
    requires forall i :: 0 <= i < |edits| ==> NoNull(edits[i].path)
    ensures NoNull(Targets(edits))
  {
    hide ShellQuote, Target;
    if edits != [] {
      assert NoNull(Target(edits[0])) by { DirNoNull(edits[0]); }
      QuoteNoNull(Target(edits[0]));
      TargetsNoNull(edits[1..]);
    }
  }

  lemma NoNullConcat(a: string, b: string)
    ensures NoNull(a + b) <==> NoNull(a) && NoNull(b)
  {
  }

  lemma LiteralsNoNull()
    ensures NoNull("for f in ") && NoNull("; do\n") && NoNull(LOOP_BODY)
  {
    assert NoNull(LOOP_TEST) && NoNull(LOOP_FAIL) && NoNull(LOOP_ECHO) && NoNull("done");
  }

  lemma ClosingNoNull(edits: seq<FileEdit>)
    requires NoNull(Targets(edits))
    ensures NoNull(Closing(edits))
  {
    hide NoNull, Targets, LOOP_BODY;
    LiteralsNoNull();
    var t := Targets(edits);
    NoNullConcat("for f in ", t);
    NoNullConcat("for f in " + t, "; do\n");
    NoNullConcat("for f in " + t + "; do\n", LOOP_BODY);
  }

  lemma ScriptNoNull(edits: seq<FileEdit>)
    requires forall i :: 0 <= i < |edits| ==> NoNull(edits[i].path)
    ensures NoNull(Script(edits)) <==> forall i :: 0 <= i < |edits| ==> NoNull(edits[i].contents)
  {
    hide NoNull, Blocks, Targets, Closing, Script;
    BlocksNoNull(edits);
    TargetsNoNull(edits);
    ClosingNoNull(edits);
    ScriptSplits(edits);
    NoNullConcat(Blocks(edits), Closing(edits));
  }

  /**
   * The script is text a shell must run, and then writes exactly the edits, if and only if no contents hold a null
   * byte; validateEdits looks for one in paths only.
   */
  lemma ExecutesUnlessNull(proposed: seq<FileEdit>, fs: Fs)
    requires proposed != [] && Acceptable(proposed)
    requires var edits := Cleansed(proposed); Disjoint(edits) && AllFree(fs, edits)
    ensures var edits := Cleansed(proposed);
            var ran := Execute(Script(edits), fs);
            if forall i :: 0 <= i < |proposed| ==> NoNull(proposed[i].contents)
            then ran.Some? && ran.value.code == 0 && ExactlyTheEdits(fs, ran.value.fs, edits)
            else ran.None?
  {
    hide Run, Script, RepoPath, NoDelimiterLine, Disjoint, AllFree, ExactlyTheEdits, AfterAll;
    var edits := Cleansed(proposed);
    forall i | 0 <= i < |edits| ensures NoNull(edits[i].path) { NoNullClean(proposed[i].path); }
    ScriptNoNull(edits);
    ScriptWritesExactlyTheEdits(proposed, fs);
    assert forall i :: 0 <= i < |edits| ==> edits[i].contents == proposed[i].contents;
  }
}
