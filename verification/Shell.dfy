/**
 * The part of the POSIX shell the generated patch script relies on: IEEE Std 1003.1-2017, Shell Command Language,
 * section 2.2.1 Escape Character, section 2.2.2 Single-Quotes, section 2.3 Token Recognition and section 2.7.4
 * Here-Document. Text outside this part makes the interpreter give no answer.
 */
module Shell {
  import opened Basics

  // ---------------------------------------------------------------- words

  predicate Blank(c: char) {
    c == ' ' || c == '\t'
  }

  predicate Operator(c: char) {
    c == ';' || c == '|' || c == '&' || c == '<' || c == '>' || c == '(' || c == ')'
  }

  predicate EndsWord(c: char) {
    Blank(c) || Operator(c) || c == '\n'
  }

  /** Characters that stand for themselves when unquoted, wherever they are. */
  predicate Plain(c: char) {
    ('a' <= c <= 'z') || ('A' <= c <= 'Z') || ('0' <= c <= '9') || c == '-' || c == '_' || c == '.' || c == '/'
  }

  /** Section 2.2.2: everything up to the next single quote, literally. */
  function ReadQuoted(s: string): (r: Option<(string, string)>)
    ensures r.Some? ==> |r.value.1| < |s|
  {
    if s == "" then None
    else if s[0] == '\'' then Some(("", s[1..]))
    else
      var q := ReadQuoted(s[1..]);
      if q.None? then None else Some(([s[0]] + q.value.0, q.value.1))
  }

  /** A word after quote removal, whether any of it was quoted, and what follows it. */
  function ReadWord(s: string): (r: Option<(string, bool, string)>)
    ensures r.Some? ==> |r.value.2| <= |s|
    ensures r.Some? && s != "" && !EndsWord(s[0]) ==> |r.value.2| < |s|
    decreases |s|
  {
    if s == "" || EndsWord(s[0]) then Some(("", false, s))
    else if s[0] == '\'' then
      var q := ReadQuoted(s[1..]);
      if q.None? then None
      else
        var w := ReadWord(q.value.1);
        if w.None? then None else Some((q.value.0 + w.value.0, true, w.value.2))
    else if s[0] == '\\' then
      if |s| < 2 || s[1] == '\n' then None
      else
        var w := ReadWord(s[2..]);
        if w.None? then None else Some(([s[1]] + w.value.0, true, w.value.2))
    else if Plain(s[0]) then
      var w := ReadWord(s[1..]);
      if w.None? then None else Some(([s[0]] + w.value.0, w.value.1, w.value.2))
    else None
  }

  datatype Token = Word(text: string, quoted: bool) | Op(op: string)

  function OperatorLength(s: string): nat
    requires s != "" && Operator(s[0])
  {
    if |s| >= 2 && s[0] == s[1] && (s[0] == '|' || s[0] == '&' || s[0] == '<' || s[0] == '>' || s[0] == ';') then 2 else 1
  }

  /** The tokens up to the end of the line, and the text after it. */
  function ReadLine(s: string): (r: Option<(seq<Token>, string)>)
    ensures r.Some? ==> |r.value.1| <= |s|
    ensures r.Some? && s != "" ==> |r.value.1| < |s|
    decreases |s|
  {
    if s == "" then Some(([], ""))
    else if s[0] == '\n' then Some(([], s[1..]))
    else if Blank(s[0]) then ReadLine(s[1..])
    else if Operator(s[0]) then
      var n := OperatorLength(s);
      var l := ReadLine(s[n..]);
      if l.None? then None else Some(([Op(s[..n])] + l.value.0, l.value.1))
    else
      var w := ReadWord(s);
      if w.None? then None
      else
        var l := ReadLine(w.value.2);
        if l.None? then None else Some(([Word(w.value.0, w.value.1)] + l.value.0, l.value.1))
  }

  /** A line and what follows it; None when the text ends first. */
  function TakeLine(s: string): (r: Option<(string, string)>)
    ensures r.Some? ==> |r.value.1| < |s|
  {
    if s == "" then None
    else if s[0] == '\n' then Some(("", s[1..]))
    else
      var l := TakeLine(s[1..]);
      if l.None? then None else Some(([s[0]] + l.value.0, l.value.1))
  }

  /** Section 2.7.4 with a quoted delimiter: lines are taken literally until one is exactly the delimiter. */
  function ReadHereDocument(s: string, delimiter: string): (r: Option<(string, string)>)
    ensures r.Some? ==> |r.value.1| < |s|
    decreases |s|
  {
    var l := TakeLine(s);
    if l.None? then None
    else if l.value.0 == delimiter then Some(("", l.value.1))
    else
      var d := ReadHereDocument(l.value.1, delimiter);
      if d.None? then None else Some((l.value.0 + "\n" + d.value.0, d.value.1))
  }

  // ---------------------------------------------------------------- the file system

  datatype Node = Directory | File(contents: string)

  type Path = seq<string>

  /** Every node but the root directory, which always exists. */
  type Fs = map<Path, Node>

  /** Split at slashes; empty components mean nothing in a path. */
  function Components(p: string): Path {
    Split(p, "")
  }

  function Split(p: string, current: string): Path {
    if p == "" then (if current == "" then [] else [current])
    else if p[0] == '/' then (if current == "" then [] else [current]) + Split(p[1..], "")
    else Split(p[1..], current + [p[0]])
  }

  predicate IsDirectory(fs: Fs, p: Path) {
    p == [] || (p in fs && fs[p].Directory?)
  }

  /** `mkdir -p`: every missing component from the root on; None when a file is in the way. */
  function MakeDirectories(fs: Fs, p: Path, n: nat): (r: Option<Fs>)
    requires n <= |p|
  {
    if n == 0 then Some(fs)
    else
      var before := MakeDirectories(fs, p, n - 1);
      if before.None? then None
      else if p[..n] !in before.value then Some(before.value[p[..n] := Directory])
      else if before.value[p[..n]].Directory? then before else None
  }

  /** A redirection creates or truncates a file in an existing directory. */
  predicate Writable(fs: Fs, p: Path) {
    p != [] && IsDirectory(fs, p[..|p| - 1]) && !(p in fs && fs[p].Directory?)
  }

  function Write(fs: Fs, p: Path, contents: string): Fs {
    if Writable(fs, p) then fs[p := File(contents)] else fs
  }

  // ---------------------------------------------------------------- running a script

  datatype Outcome = Outcome(fs: Fs, code: nat)

  const LOOP_TEST := "  [ -e \"$f\" ] || { echo "
  const LOOP_FAIL := "\"could not write $f\"; exit 91; }\n"
  const LOOP_ECHO := "  echo \"wrote $f\"\n"
  const LOOP_BODY := LOOP_TEST + LOOP_FAIL + LOOP_ECHO + "done"

  predicate IsMakeDirectories(t: seq<Token>) {
    |t| == 6 && t[0] == Word("mkdir", false) && t[1] == Word("-p", false) && t[2].Word? &&
    t[3] == Op("||") && t[4] == Word("exit", false) && t[5] == Word("90", false)
  }

  predicate IsCatHereDocument(t: seq<Token>) {
    |t| == 5 && t[0] == Word("cat", false) && t[1] == Op(">") && t[2].Word? && t[3] == Op("<<") && t[4].Word? &&
    t[4].quoted
  }

  /** `for f in words; do` */
  predicate IsForLoop(t: seq<Token>) {
    |t| >= 5 && t[0] == Word("for", false) && t[1] == Word("f", false) && t[2] == Word("in", false) &&
    t[|t| - 2] == Op(";") && t[|t| - 1] == Word("do", false) && forall i :: 3 <= i < |t| - 2 ==> t[i].Word?
  }

  /** The generated loop only looks: it ends with 91 at the first word that names nothing. */
  predicate AllExist(fs: Fs, words: seq<Token>) {
    forall i :: 0 <= i < |words| ==>
      words[i].Word? && (Components(words[i].text) == [] || Components(words[i].text) in fs)
  }

  function Run(s: string, fs: Fs): Option<Outcome>
    decreases |s|
  {
    var l := ReadLine(s);
    if l.None? then None
    else
      var t, rest := l.value.0, l.value.1;
      if t == [] then (if s == "" then Some(Outcome(fs, 0)) else Run(rest, fs))
      else if IsMakeDirectories(t) then
        var p := Components(t[2].text);
        var made := MakeDirectories(fs, p, |p|);
        if made.None? then Some(Outcome(fs, 90)) else Run(rest, made.value)
      else if IsCatHereDocument(t) then
        var d := ReadHereDocument(rest, t[4].text);
        if d.None? then None else Run(d.value.1, Write(fs, Components(t[2].text), d.value.0))
      else if IsForLoop(t) && rest == LOOP_BODY then
        Some(Outcome(fs, if AllExist(fs, t[3..|t| - 2]) then 0 else 91))
      else None
  }

  /** A script is text (section 2.1): a null byte puts it outside anything the standard says. */
  function Execute(s: string, fs: Fs): Option<Outcome> {
    if '\0' in s then None else Run(s, fs)
  }

  // ---------------------------------------------------------------- quoting

  function Escaped(s: string): string {
    if s == "" then "" else (if s[0] == '\'' then "'\\''" else [s[0]]) + Escaped(s[1..])
  }

  /** shellQuote. */
  function ShellQuote(s: string): string {
    "'" + Escaped(s) + "'"
  }

  predicate AtWordEnd(s: string) {
    s == "" || EndsWord(s[0])
  }

  /** The rest of a word from inside a quote that started earlier. */
  function FromQuote(t: string): Option<(string, string)> {
    var q := ReadQuoted(t);
    if q.None? then None
    else
      var w := ReadWord(q.value.1);
      if w.None? then None else Some((q.value.0 + w.value.0, w.value.2))
  }

  lemma QuotedCharacter(c: char, t: string)
    requires c != '\'' && FromQuote(t).Some?
    ensures FromQuote([c] + t) == Some(([c] + FromQuote(t).value.0, FromQuote(t).value.1))
  {
    assert ([c] + t)[1..] == t;
    hide ReadWord;
    var q := ReadQuoted(t).value;
    var w := ReadWord(q.1).value;
    assert ([c] + q.0) + w.0 == [c] + (q.0 + w.0);
  }

  /** Closing the quote, an escaped quote, and opening it again read as one single quote. */
  lemma QuotedQuote(t: string)
    requires FromQuote(t).Some?
    ensures FromQuote("'\\''" + t) == Some(("'" + FromQuote(t).value.0, FromQuote(t).value.1))
  {
    var u, v := "\\''" + t, "'" + t;
    assert ("'\\''" + t)[0] == '\'' && ("'\\''" + t)[1..] == u;
    assert u[0] == '\\' && u[1] == '\'' && u[2..] == v && v[0] == '\'' && v[1..] == t;
    assert ReadQuoted("'\\''" + t) == Some(("", u));
    var w := ReadWord(v);
    assert w == Some((FromQuote(t).value.0, true, FromQuote(t).value.1));
    assert ReadWord(u) == Some((['\''] + w.value.0, true, w.value.2));
    assert "" + ("'" + w.value.0) == "'" + w.value.0;
  }

  lemma QuoteCloses(rest: string)
    requires AtWordEnd(rest)
    ensures FromQuote("'" + rest) == Some(("", rest))
  {
    assert ("'" + rest)[1..] == rest;
    assert ReadWord(rest) == Some(("", false, rest));
    assert "" + "" == "";
  }

  lemma {:induction false} InsideQuote(s: string, rest: string)
    requires AtWordEnd(rest)
    ensures FromQuote(Escaped(s) + "'" + rest) == Some((s, rest))
  {
    hide FromQuote, AtWordEnd;
    if s == "" {
      assert Escaped(s) + "'" + rest == "'" + rest;
      QuoteCloses(rest);
    } else {
      var t := Escaped(s[1..]) + "'" + rest;
      InsideQuote(s[1..], rest);
      assert s == [s[0]] + s[1..];
      if s[0] == '\'' {
        QuotedQuote(t);
        assert Escaped(s) + "'" + rest == "'\\''" + t;
      } else {
        QuotedCharacter(s[0], t);
        assert Escaped(s) + "'" + rest == [s[0]] + t;
      }
    }
  }

  /** shellQuote evaluates back to its input, for every string. */
  lemma QuoteReadsBack(s: string, rest: string)
    requires AtWordEnd(rest)
    ensures ReadWord(ShellQuote(s) + rest) == Some((s, true, rest))
  {
    InsideQuote(s, rest);
    var t := Escaped(s) + "'" + rest;
    assert ShellQuote(s) + rest == "'" + t && ("'" + t)[1..] == t;
    hide Escaped, ReadQuoted;
  }

  lemma {:induction false} PlainReadsBack(w: string, rest: string)
    requires (forall i :: 0 <= i < |w| ==> Plain(w[i])) && AtWordEnd(rest)
    ensures ReadWord(w + rest) == Some((w, false, rest))
  {
    if w == "" {
      assert w + rest == rest;
    } else {
      PlainReadsBack(w[1..], rest);
      assert (w + rest)[1..] == w[1..] + rest && w == [w[0]] + w[1..];
    }
  }

  // ---------------------------------------------------------------- lines

  lemma WordFirst(source: string, text: string, quoted: bool, rest: string)
    requires source != "" && !EndsWord(source[0]) && ReadWord(source + rest) == Some((text, quoted, rest))
    requires ReadLine(rest).Some?
    ensures ReadLine(source + rest) == Some(([Word(text, quoted)] + ReadLine(rest).value.0, ReadLine(rest).value.1))
  {
  }

  lemma PlainFirst(w: string, rest: string)
    requires w != "" && (forall i :: 0 <= i < |w| ==> Plain(w[i])) && AtWordEnd(rest) && ReadLine(rest).Some?
    ensures ReadLine(w + rest) == Some(([Word(w, false)] + ReadLine(rest).value.0, ReadLine(rest).value.1))
  {
    PlainReadsBack(w, rest);
    hide ReadLine;
    WordFirst(w, w, false, rest);
  }

  lemma QuoteFirst(s: string, rest: string)
    requires AtWordEnd(rest) && ReadLine(rest).Some?
    ensures ReadLine(ShellQuote(s) + rest) == Some(([Word(s, true)] + ReadLine(rest).value.0, ReadLine(rest).value.1))
  {
    QuoteReadsBack(s, rest);
    assert ShellQuote(s)[0] == '\'';
    hide ReadLine, ReadWord, ShellQuote;
    WordFirst(ShellQuote(s), s, true, rest);
  }

  lemma BlankFirst(rest: string)
    requires ReadLine(rest).Some?
    ensures AtWordEnd(" " + rest) && ReadLine(" " + rest) == ReadLine(rest)
  {
    assert (" " + rest)[1..] == rest;
  }

  lemma NewlineFirst(rest: string)
    ensures AtWordEnd("\n" + rest) && ReadLine("\n" + rest) == Some(([], rest))
  {
    assert ("\n" + rest)[1..] == rest;
  }

  lemma OperatorFirst(op: string, rest: string)
    requires op in {"||", "<<"} || (op in {">", ";"} && rest != "" && rest[0] == ' ')
    requires ReadLine(rest).Some?
    ensures AtWordEnd(op + rest)
    ensures ReadLine(op + rest) == Some(([Op(op)] + ReadLine(rest).value.0, ReadLine(rest).value.1))
  {
    var s := op + rest;
    assert s[0] == op[0] && OperatorLength(s) == |op| && s[..|op|] == op && s[|op|..] == rest;
  }

  // ---------------------------------------------------------------- here-documents

  /** Every line of the text, the last one included even without its newline. */
  function Lines(s: string): seq<string>
    decreases |s|
  {
    var l := TakeLine(s);
    if l.None? then [s] else [l.value.0] + Lines(l.value.1)
  }

  lemma {:induction false} TakeLineSplits(s: string, rest: string)
    ensures TakeLine(s).Some? ==> TakeLine(s + rest) == Some((TakeLine(s).value.0, TakeLine(s).value.1 + rest))
    ensures TakeLine(s).Some? ==> s == TakeLine(s).value.0 + "\n" + TakeLine(s).value.1
    ensures TakeLine(s).None? ==> TakeLine(s + "\n" + rest) == Some((s, rest))
  {
    if s == "" {
      assert s + "\n" + rest == "\n" + rest && ("\n" + rest)[1..] == rest;
    } else {
      assert (s + rest)[1..] == s[1..] + rest && (s + "\n" + rest)[1..] == s[1..] + "\n" + rest;
      if s[0] != '\n' {
        TakeLineSplits(s[1..], rest);
        assert s == [s[0]] + s[1..];
      } else {
        assert s == "\n" + s[1..];
      }
    }
  }

  /** The written contents: one final newline added when missing. */
  function WithNewline(s: string): string {
    if s != "" && s[|s| - 1] == '\n' then s else s + "\n"
  }

  lemma LastLine(s: string)
    requires TakeLine(s).Some?
    ensures var rest := TakeLine(s).value.1;
            && (rest == "" ==> s[|s| - 1] == '\n')
            && (rest != "" ==> WithNewline(s) == TakeLine(s).value.0 + "\n" + WithNewline(rest))
  {
    TakeLineSplits(s, "");
    hide TakeLine;
    var line, rest := TakeLine(s).value.0, TakeLine(s).value.1;
    assert s == line + "\n" + rest;
    if rest != "" { assert s[|s| - 1] == rest[|rest| - 1]; }
  }

  lemma {:induction false} NoLineIsDelimiter(s: string, delimiter: string)
    requires forall i :: 0 <= i < |Lines(s)| ==> Lines(s)[i] != delimiter
    ensures TakeLine(s).None? ==> s != delimiter
    ensures TakeLine(s).Some? ==> TakeLine(s).value.0 != delimiter
    ensures TakeLine(s).Some? ==> forall i :: 0 <= i < |Lines(TakeLine(s).value.1)| ==>
                                    Lines(TakeLine(s).value.1)[i] != delimiter
  {
    var lines := Lines(s);
    assert lines[0] != delimiter;
    if TakeLine(s).Some? {
      var rest := Lines(TakeLine(s).value.1);
      assert forall i :: 0 <= i < |rest| ==> rest[i] == lines[i + 1];
    }
  }

  lemma OneMoreLine(line: string, inner: string, delimiter: string)
    requires TakeLine(line + "\n" + inner) == Some((line, inner)) && line != delimiter
    requires ReadHereDocument(inner, delimiter).Some?
    ensures ReadHereDocument(line + "\n" + inner, delimiter)
            == Some((line + "\n" + ReadHereDocument(inner, delimiter).value.0, ReadHereDocument(inner, delimiter).value.1))
  {
  }

  lemma EndOfDocument(delimiter: string, rest: string)
    requires forall i :: 0 <= i < |delimiter| ==> delimiter[i] != '\n'
    ensures ReadHereDocument(delimiter + "\n" + rest, delimiter) == Some(("", rest))
  {
    DelimiterLine(delimiter, rest);
  }

  lemma Regroup(a: string, b: string, c: string, d: string)
    ensures a + b + c + d == a + (b + c + d)
  {
  }

  lemma OneUnfinishedLine(s: string, delimiter: string, rest: string)
    requires TakeLine(s).None? && s != delimiter && forall i :: 0 <= i < |delimiter| ==> delimiter[i] != '\n'
    ensures ReadHereDocument(WithNewline(s) + delimiter + "\n" + rest, delimiter) == Some((WithNewline(s), rest))
  {
    hide ReadHereDocument, TakeLine;
    var tail := delimiter + "\n" + rest;
    EndOfDocument(delimiter, rest);
    TakeLineSplits(s, tail);
    Unfinished(s);
    OneMoreLine(s, tail, delimiter);
    Regroup(WithNewline(s), delimiter, "\n", rest);
    assert s + "\n" + "" == s + "\n";
  }

  lemma Unfinished(s: string)
    requires TakeLine(s).None?
    ensures WithNewline(s) == s + "\n"
  {
    NoNewline(s);
  }

  lemma Finished(s: string)
    requires TakeLine(s).Some? && TakeLine(s).value.1 == ""
    ensures WithNewline(s) == s == TakeLine(s).value.0 + "\n"
  {
    TakeLineSplits(s, "");
    hide TakeLine;
    LastLine(s);
    var line := TakeLine(s).value.0;
    assert line + "\n" + "" == line + "\n";
  }

  lemma OneFinishedLine(s: string, delimiter: string, rest: string)
    requires TakeLine(s).Some? && TakeLine(s).value.1 == "" && TakeLine(s).value.0 != delimiter
    requires forall i :: 0 <= i < |delimiter| ==> delimiter[i] != '\n'
    ensures ReadHereDocument(WithNewline(s) + delimiter + "\n" + rest, delimiter) == Some((WithNewline(s), rest))
  {
    hide ReadHereDocument, TakeLine, WithNewline;
    var line, tail := TakeLine(s).value.0, delimiter + "\n" + rest;
    EndOfDocument(delimiter, rest);
    Finished(s);
    TakeLineSplits(s, tail);
    assert "" + tail == tail;
    OneMoreLine(line, tail, delimiter);
    Regroup(WithNewline(s), delimiter, "\n", rest);
    assert line + "\n" + "" == line + "\n";
  }

  /** A here-document whose lines never equal the delimiter carries its contents unchanged. */
  lemma {:induction false} HereDocumentReadsBack(s: string, delimiter: string, rest: string)
    requires (forall i :: 0 <= i < |delimiter| ==> delimiter[i] != '\n')
    requires forall i :: 0 <= i < |Lines(s)| ==> Lines(s)[i] != delimiter
    ensures ReadHereDocument(WithNewline(s) + delimiter + "\n" + rest, delimiter) == Some((WithNewline(s), rest))
    decreases |s|
  {
    hide Lines, ReadHereDocument, WithNewline, TakeLine;
    NoLineIsDelimiter(s, delimiter);
    var l := TakeLine(s);
    if l.None? {
      OneUnfinishedLine(s, delimiter, rest);
    } else if l.value.1 == "" {
      OneFinishedLine(s, delimiter, rest);
    } else {
      var line, more := l.value.0, l.value.1;
      var inner := WithNewline(more) + delimiter + "\n" + rest;
      HereDocumentReadsBack(more, delimiter, rest);
      LastLine(s);
      LineAlone(s, line, more, inner);
      OneMoreLine(line, inner, delimiter);
      assert WithNewline(s) + delimiter + "\n" + rest == line + "\n" + inner;
    }
  }

  lemma DelimiterLine(delimiter: string, rest: string)
    requires forall i :: 0 <= i < |delimiter| ==> delimiter[i] != '\n'
    ensures TakeLine(delimiter + "\n" + rest) == Some((delimiter, rest))
  {
    NoNewlineNoLine(delimiter);
    TakeLineSplits(delimiter, rest);
  }

  lemma {:induction false} NoNewlineNoLine(s: string)
    requires forall i :: 0 <= i < |s| ==> s[i] != '\n'
    ensures TakeLine(s).None?
  {
    if s != "" { NoNewlineNoLine(s[1..]); }
  }

  lemma {:induction false} NoNewline(s: string)
    requires TakeLine(s).None?
    ensures forall i :: 0 <= i < |s| ==> s[i] != '\n'
  {
    if s != "" {
      NoNewline(s[1..]);
      assert forall i :: 1 <= i < |s| ==> s[i] == s[1..][i - 1];
    }
  }

  lemma {:induction false} LineAlone(s: string, line: string, more: string, inner: string)
    requires TakeLine(s) == Some((line, more))
    ensures TakeLine(line + "\n" + inner) == Some((line, inner))
  {
    if s[0] == '\n' {
      assert line + "\n" + inner == "\n" + inner && ("\n" + inner)[1..] == inner;
    } else {
      LineAlone(s[1..], line[1..], more, inner);
      assert (line + "\n" + inner)[1..] == line[1..] + "\n" + inner;
    }
  }
}
