/** Rewriting a systemd unit so that its [Service] section sets one working directory, seen on the
    unit's lines. */
module ServiceUnit {
  import opened Text
  import opened Wrappers

  type Line = string

  const WORKING_DIRECTORY := "WorkingDirectory="
  const SERVICE_HEADER := "[service]"

  // --- reading one line ---

  predicate IsSection(line: Line) {
    var t := Trim(line);
    t != [] && t[0] == '[' && t[|t| - 1] == ']'
  }

  datatype Kind = ServiceHeader | OtherHeader | Directory | Plain

  function KindOf(line: Line): Kind {
    if IsSection(line) then (if AsciiLower(Trim(line)) == SERVICE_HEADER then ServiceHeader else OtherHeader)
    else if WORKING_DIRECTORY <= Trim(line) then Directory
    else Plain
  }

  lemma InsertedLineIsDirectory(currentDir: string)
    ensures KindOf(WORKING_DIRECTORY + currentDir) == Directory
  {
    var wd := WORKING_DIRECTORY + currentDir;
    assert TrimStart(wd) == wd;
    TrimEndKeepsPrefix(wd, WORKING_DIRECTORY);
    assert Trim(wd)[0] == 'W';
  }

  // --- positions in a unit; `kind` classifies its lines ---

  type Reading = Line -> Kind

  /** Whether position i lies in a [Service] section: the last section header before it opens one. */
  predicate InService(kind: Reading, lines: seq<Line>, i: nat)
    requires i <= |lines|
  {
    i > 0 &&
    match kind(lines[i - 1])
    case ServiceHeader => true
    case OtherHeader => false
    case _ => InService(kind, lines, i - 1)
  }

  /** A working directory setting of a [Service] section. */
  predicate Setting(kind: Reading, lines: seq<Line>, i: nat)
    requires i < |lines|
  {
    InService(kind, lines, i) && kind(lines[i]) == Directory
  }

  /** The lines that are no such setting, in order. */
  function OtherLines(kind: Reading, lines: seq<Line>): seq<Line> {
    if lines == [] then []
    else
      var n := |lines| - 1;
      OtherLines(kind, lines[..n]) + if Setting(kind, lines, n) then [] else [lines[n]]
  }

  function Settings(kind: Reading, lines: seq<Line>): seq<Line> {
    if lines == [] then []
    else
      var n := |lines| - 1;
      Settings(kind, lines[..n]) + if Setting(kind, lines, n) then [lines[n]] else []
  }

  /** Number of [Service] headers among the first i lines. */
  function ServiceHeaders(kind: Reading, lines: seq<Line>, i: nat): nat
    requires i <= |lines|
  {
    if i == 0 then 0 else ServiceHeaders(kind, lines, i - 1) + if kind(lines[i - 1]) == ServiceHeader then 1 else 0
  }

  /** Every setting comes after exactly one [Service] header. */
  ghost predicate SettingsInFirst(kind: Reading, lines: seq<Line>) {
    forall i: nat :: i < |lines| && Setting(kind, lines, i) ==> ServiceHeaders(kind, lines, i) == 1
  }

  // --- the rewrite ---

  /** Where the loop stands after some lines: what it has put out and its two flags. The third flag
      of the code, whether a [Service] section was seen, is that the header count is positive. */
  datatype Scan = Scan(output: seq<Line>, inService: bool, replaced: bool)

  function Next(kind: Reading, s: Scan, line: Line, wd: Line): Scan {
    match kind(line)
    case Plain => s.(output := s.output + [line])
    case Directory =>
      if !s.inService then s.(output := s.output + [line])
      else if s.replaced then s
      else s.(output := s.output + [wd], replaced := true)
    case header =>
      if s.inService && !s.replaced then Scan(s.output + [wd] + [line], header.ServiceHeader?, true)
      else Scan(s.output + [line], header.ServiceHeader?, s.replaced)
  }

  function Scanned(kind: Reading, lines: seq<Line>, wd: Line): Scan {
    if lines == [] then Scan([], false, false)
    else Next(kind, Scanned(kind, lines[..|lines| - 1], wd), lines[|lines| - 1], wd)
  }

  /** The rewritten lines. */
  function Rewritten(kind: Reading, lines: seq<Line>, wd: Line): seq<Line> {
    var s := Scanned(kind, lines, wd);
    if s.inService && !s.replaced then s.output + [wd] else s.output
  }

  /** `normalize_service_working_directory` on lines; it fails when there is no [Service] section. */
  method Normalize(lines: seq<Line>, currentDir: string) returns (r: Result<seq<Line>, ()>)
    ensures r.Ok? <==> exists i :: 0 <= i < |lines| && SpellsService(lines[i])
    ensures r.Ok? ==> r.value == Rewritten(KindOf, lines, "WorkingDirectory=" + currentDir)
  {
    var wd := WORKING_DIRECTORY + currentDir;
    var output: seq<Line> := [];
    var sawService, inService, replaced := false, false, false;
    for i := 0 to |lines|
      invariant Scanned(KindOf, lines[..i], wd) == Scan(output, inService, replaced)
      invariant sawService <==> ServiceHeaders(KindOf, lines, i) > 0
    {
      var line := lines[i];
      assert lines[..i + 1][..i] == lines[..i];
      if IsSection(line) {
        if inService && !replaced {
          output := output + [wd];
          replaced := true;
        }
        inService := AsciiLower(Trim(line)) == SERVICE_HEADER;
        if inService {
          sawService := true;
        }
        output := output + [line];
        continue;
      }
      if inService && WORKING_DIRECTORY <= Trim(line) {
        if !replaced {
          output := output + [wd];
          replaced := true;
        }
        continue;
      }
      output := output + [line];
    }
    assert lines[..|lines|] == lines;
    HeadersBySpelling(lines, |lines|);
    if !sawService {
      return Err(());
    }
    if inService && !replaced {
      output := output + [wd];
    }
    r := Ok(output);
  }

  // --- what the rewrite does ---

  lemma {:induction false} PrefixPositions(kind: Reading, a: seq<Line>, b: seq<Line>, i: nat)
    requires i <= |a|
    ensures InService(kind, a + b, i) == InService(kind, a, i)
    ensures ServiceHeaders(kind, a + b, i) == ServiceHeaders(kind, a, i)
  {
    if i > 0 {
      PrefixPositions(kind, a, b, i - 1);
    }
  }

  lemma {:induction false} InServiceHasHeader(kind: Reading, lines: seq<Line>, i: nat)
    requires i <= |lines|
    ensures InService(kind, lines, i) ==> ServiceHeaders(kind, lines, i) > 0
  {
    if i > 0 {
      InServiceHasHeader(kind, lines, i - 1);
    }
  }

  predicate EndsInService(kind: Reading, lines: seq<Line>) {
    InService(kind, lines, |lines|)
  }

  function Headers(kind: Reading, lines: seq<Line>): nat {
    ServiceHeaders(kind, lines, |lines|)
  }

  /** One more line at the end. */
  lemma SnocViews(kind: Reading, a: seq<Line>, line: Line)
    ensures var all := a + [line]; var k := kind(line); var isSetting := EndsInService(kind, a) && k == Directory;
      && EndsInService(kind, all) == (k == ServiceHeader || (k != OtherHeader && EndsInService(kind, a)))
      && Settings(kind, all) == Settings(kind, a) + (if isSetting then [line] else [])
      && OtherLines(kind, all) == OtherLines(kind, a) + (if isSetting then [] else [line])
      && Headers(kind, all) == Headers(kind, a) + (if k == ServiceHeader then 1 else 0)
      && (SettingsInFirst(kind, all) <==> SettingsInFirst(kind, a) && (isSetting ==> Headers(kind, a) == 1))
  {
    var all := a + [line];
    assert all[..|a|] == a;
    PrefixPositions(kind, a, [line], |a|);
    forall i: nat | i < |a|
      ensures Setting(kind, all, i) == Setting(kind, a, i)
      ensures ServiceHeaders(kind, all, i) == ServiceHeaders(kind, a, i)
    {
      PrefixPositions(kind, a, [line], i);
    }
    assert Setting(kind, all, |a|) == (EndsInService(kind, a) && kind(line) == Directory);
    if SettingsInFirst(kind, all) {
      forall i: nat | i < |a| && Setting(kind, a, i)
        ensures ServiceHeaders(kind, a, i) == 1
      {
        assert Setting(kind, all, i);
      }
    }
  }

  /** The loop invariant: the output ends in the same section as the input, holds the other lines in
      order and, once the flag is up, one setting, which is in the first [Service] section. */
  ghost predicate ScanInvariant(kind: Reading, lines: seq<Line>, wd: Line, s: Scan) {
    && s.inService == EndsInService(kind, lines) == EndsInService(kind, s.output)
    && OtherLines(kind, s.output) == OtherLines(kind, lines)
    && Settings(kind, s.output) == (if s.replaced then [wd] else [])
    && Headers(kind, s.output) == Headers(kind, lines)
    && (!s.replaced ==> Headers(kind, lines) == if s.inService then 1 else 0)
    && SettingsInFirst(kind, s.output)
  }

  lemma NextKeepsInvariant(kind: Reading, lines: seq<Line>, line: Line, wd: Line, s: Scan)
    requires kind(wd) == Directory && ScanInvariant(kind, lines, wd, s)
    ensures ScanInvariant(kind, lines + [line], wd, Next(kind, s, line, wd))
  {
    SnocViews(kind, lines, line);
    SnocViews(kind, s.output, line);
    SnocViews(kind, s.output, wd);
    SnocViews(kind, s.output + [wd], line);
  }

  lemma {:induction false} ScannedKeepsInvariant(kind: Reading, lines: seq<Line>, wd: Line)
    requires kind(wd) == Directory
    ensures ScanInvariant(kind, lines, wd, Scanned(kind, lines, wd))
  {
    if lines != [] {
      var n := |lines| - 1;
      ScannedKeepsInvariant(kind, lines[..n], wd);
      NextKeepsInvariant(kind, lines[..n], lines[n], wd, Scanned(kind, lines[..n], wd));
      assert lines[..n] + [lines[n]] == lines;
    }
  }

  /** A unit with a [Service] section comes out with exactly one working directory setting across all
      its [Service] sections, the new one, placed in the first of them; every other line keeps its
      text and its order. */
  lemma RewrittenSetsOneDirectory(lines: seq<Line>, currentDir: string)
    requires Headers(KindOf, lines) > 0
    ensures var wd := WORKING_DIRECTORY + currentDir; var out := Rewritten(KindOf, lines, wd);
      && Settings(KindOf, out) == [wd] && SettingsInFirst(KindOf, out)
      && OtherLines(KindOf, out) == OtherLines(KindOf, lines)
      && Headers(KindOf, out) == Headers(KindOf, lines)
  {
    InsertedLineIsDirectory(currentDir);
    SettledBy(KindOf, lines, WORKING_DIRECTORY + currentDir);
  }

  lemma SettledBy(kind: Reading, lines: seq<Line>, wd: Line)
    requires kind(wd) == Directory && Headers(kind, lines) > 0
    ensures var out := Rewritten(kind, lines, wd);
      && Settings(kind, out) == [wd] && SettingsInFirst(kind, out)
      && OtherLines(kind, out) == OtherLines(kind, lines) && Headers(kind, out) == Headers(kind, lines)
  {
    ScannedKeepsInvariant(kind, lines, wd);
    SnocViews(kind, Scanned(kind, lines, wd).output, wd);
  }

  /** Lines in which the one setting, if any yet, is the new line in the first section scan to themselves. */
  lemma {:induction false} ScanOfSettled(kind: Reading, lines: seq<Line>, wd: Line)
    requires kind(wd) == Directory && SettingsInFirst(kind, lines) && Settings(kind, lines) <= [wd]
    requires Settings(kind, lines) == [] ==> Headers(kind, lines) == if EndsInService(kind, lines) then 1 else 0
    ensures Scanned(kind, lines, wd) == Scan(lines, EndsInService(kind, lines), Settings(kind, lines) != [])
  {
    if lines != [] {
      var n := |lines| - 1;
      var front, line := lines[..n], lines[n];
      assert front + [line] == lines;
      SnocViews(kind, front, line);
      InServiceHasHeader(kind, front, n);
      assert Settings(kind, front) <= [wd];
      ScanOfSettled(kind, front, wd);
      ReplacedStays(kind, front, line, wd);
    }
  }

  /** No second setting can follow the first: the list of settings would have two lines. */
  lemma ReplacedStays(kind: Reading, front: seq<Line>, line: Line, wd: Line)
    requires Settings(kind, front + [line]) <= [wd]
    ensures Settings(kind, front) != [] ==> !(EndsInService(kind, front) && kind(line) == Directory)
    ensures EndsInService(kind, front) && kind(line) == Directory ==> line == wd
  {
    SnocViews(kind, front, line);
    var all := Settings(kind, front + [line]);
    assert |all| <= 1;
    assert all != [] ==> all[0] == wd;
  }

  /** Rewriting again changes nothing. */
  lemma RewriteIsIdempotent(lines: seq<Line>, currentDir: string)
    requires Headers(KindOf, lines) > 0
    ensures var wd := WORKING_DIRECTORY + currentDir;
      Rewritten(KindOf, Rewritten(KindOf, lines, wd), wd) == Rewritten(KindOf, lines, wd)
  {
    var wd := WORKING_DIRECTORY + currentDir;
    RewrittenSetsOneDirectory(lines, currentDir);
    InsertedLineIsDirectory(currentDir);
    ScanOfSettled(KindOf, Rewritten(KindOf, lines, wd), wd);
  }

  // --- which lines these are, character by character, and where the new one goes ---

  /** The trimmed line is [Service], each character up to ASCII case. */
  predicate SpellsService(line: Line) {
    var t := Trim(line);
    |t| == 9 && forall i :: 0 <= i < 9 ==> t[i] == "[SERVICE]"[i] || t[i] == "[service]"[i]
  }

  /** The trimmed line is in square brackets. */
  predicate Bracketed(line: Line) {
    var t := Trim(line);
    |t| >= 2 && t[0] == '[' && t[|t| - 1] == ']'
  }

  /** The trimmed line starts with the text of the setting. */
  predicate SetsDirectory(line: Line) {
    var t := Trim(line);
    |t| >= 17 && t[..17] == "WorkingDirectory="
  }

  lemma SpelledInLowerCase(t: string)
    ensures AsciiLower(t) == SERVICE_HEADER <==>
      |t| == 9 && forall i :: 0 <= i < 9 ==> t[i] == "[SERVICE]"[i] || t[i] == "[service]"[i]
  {
    if |t| == 9 {
      forall i | 0 <= i < 9
        ensures AsciiLower(t)[i] == SERVICE_HEADER[i] <==> t[i] == "[SERVICE]"[i] || t[i] == "[service]"[i]
      {
      }
      if AsciiLower(t) == SERVICE_HEADER {
        assert forall i :: 0 <= i < 9 ==> AsciiLower(t)[i] == SERVICE_HEADER[i];
      }
      if forall i :: 0 <= i < 9 ==> t[i] == "[SERVICE]"[i] || t[i] == "[service]"[i] {
        assert forall i :: 0 <= i < 9 ==> AsciiLower(t)[i] == SERVICE_HEADER[i];
        assert AsciiLower(t) == SERVICE_HEADER;
      }
    }
  }

  /** The kinds of lines: a [Service] header is spelled so, any other bracketed line is another header,
      and the rest are settings of the directory or not. */
  lemma KindsOfLines(line: Line)
    ensures KindOf(line) == ServiceHeader <==> SpellsService(line)
    ensures KindOf(line) == OtherHeader <==> Bracketed(line) && !SpellsService(line)
    ensures KindOf(line) == Directory <==> SetsDirectory(line) && !Bracketed(line)
    ensures SpellsService(line) ==> Bracketed(line)
  {
    var t := Trim(line);
    SpelledInLowerCase(t);
    if |t| == 1 {
      assert t[0] == t[|t| - 1];
    }
  }

  /** There is a [Service] header exactly if some line spells it. */
  lemma {:induction false} HeadersBySpelling(lines: seq<Line>, n: nat)
    requires n <= |lines|
    ensures ServiceHeaders(KindOf, lines, n) > 0 <==> exists i :: 0 <= i < n && SpellsService(lines[i])
  {
    if n > 0 {
      HeadersBySpelling(lines, n - 1);
      KindsOfLines(lines[n - 1]);
    }
  }

  lemma ScanOneMore(kind: Reading, front: seq<Line>, line: Line, wd: Line)
    ensures Scanned(kind, front + [line], wd) == Next(kind, Scanned(kind, front, wd), line, wd)
  {
    assert (front + [line])[..|front|] == front;
  }

  /** Scanning on through plain lines, from inside a [Service] section without a setting yet. */
  lemma {:induction false} ScanOfPlain(kind: Reading, front: seq<Line>, body: seq<Line>, wd: Line)
    requires forall i :: 0 <= i < |body| ==> kind(body[i]) == Plain
    requires Scanned(kind, front, wd) == Scan(front, true, false)
    ensures Scanned(kind, front + body, wd) == Scan(front + body, true, false)
    decreases |body|
  {
    if body == [] {
      assert front + body == front;
    } else {
      var n := |body| - 1;
      ScanOfPlain(kind, front, body[..n], wd);
      assert front + body == front + body[..n] + [body[n]];
      ScanOneMore(kind, front + body[..n], body[n], wd);
    }
  }

  /** Scanning up to the first [Service] header puts every line out unchanged. */
  lemma {:induction false} ScanBefore(kind: Reading, lines: seq<Line>, wd: Line)
    requires forall i :: 0 <= i < |lines| ==> kind(lines[i]) != ServiceHeader
    ensures Scanned(kind, lines, wd) == Scan(lines, false, false)
  {
    if lines != [] {
      var n := |lines| - 1;
      ScanBefore(kind, lines[..n], wd);
      assert lines[..n] + [lines[n]] == lines;
    }
  }

  /** What has been put out stays, whatever follows. */
  lemma {:induction false} OutputStays(front: seq<Line>, more: seq<Line>, wd: Line)
    ensures Scanned(KindOf, front, wd).output <= Scanned(KindOf, front + more, wd).output
    decreases |more|
  {
    if more == [] {
      assert front + more == front;
    } else {
      var n := |more| - 1;
      OutputStays(front, more[..n], wd);
      assert (front + more)[..|front + more| - 1] == front + more[..n];
    }
  }

  lemma ScanIntoService(before: seq<Line>, header: Line, body: seq<Line>, wd: Line)
    requires forall i :: 0 <= i < |before| ==> !SpellsService(before[i])
    requires SpellsService(header)
    requires forall i :: 0 <= i < |body| ==> !Bracketed(body[i]) && !SetsDirectory(body[i])
    ensures Scanned(KindOf, before + [header] + body, wd) == Scan(before + [header] + body, true, false)
  {
    forall i | 0 <= i < |before|
      ensures KindOf(before[i]) != ServiceHeader
    {
      KindsOfLines(before[i]);
    }
    forall i | 0 <= i < |body|
      ensures KindOf(body[i]) == Plain
    {
      KindsOfLines(body[i]);
    }
    KindsOfLines(header);
    ScanBefore(KindOf, before, wd);
    ScanOneMore(KindOf, before, header, wd);
    ScanOfPlain(KindOf, before + [header], body, wd);
  }

  /** The line that ends the first stretch of a [Service] section is preceded, or replaced, by the new one. */
  lemma NewLineBefore(front: seq<Line>, next: Line, wd: Line)
    requires Scanned(KindOf, front, wd) == Scan(front, true, false)
    requires Bracketed(next) || SetsDirectory(next)
    ensures front + [wd] <= Scanned(KindOf, front + [next], wd).output
    ensures Scanned(KindOf, front + [next], wd).replaced
  {
    KindsOfLines(next);
    ScanOneMore(KindOf, front, next, wd);
  }

  lemma RewrittenStarts(front: seq<Line>, next: Line, more: seq<Line>, wd: Line)
    requires Scanned(KindOf, front, wd) == Scan(front, true, false)
    requires Bracketed(next) || SetsDirectory(next)
    ensures front + [wd] <= Rewritten(KindOf, front + [next] + more, wd)
  {
    NewLineBefore(front, next, wd);
    OutputStays(front + [next], more, wd);
    var out := Scanned(KindOf, front + [next] + more, wd).output;
    assert front + [wd] <= out && out <= Rewritten(KindOf, front + [next] + more, wd);
  }

  lemma LineIsPlaced(before: seq<Line>, header: Line, body: seq<Line>, rest: seq<Line>, wd: Line)
    requires forall i :: 0 <= i < |before| ==> !SpellsService(before[i])
    requires SpellsService(header)
    requires forall i :: 0 <= i < |body| ==> !Bracketed(body[i]) && !SetsDirectory(body[i])
    requires rest != [] ==> Bracketed(rest[0]) || SetsDirectory(rest[0])
    ensures before + [header] + body + [wd] <= Rewritten(KindOf, before + [header] + body + rest, wd)
  {
    var front := before + [header] + body;
    ScanIntoService(before, header, body, wd);
    if rest == [] {
      assert front + rest == front;
    } else {
      RewrittenStarts(front, rest[0], rest[1..], wd);
      assert front + [rest[0]] + rest[1..] == front + rest;
    }
  }

  /** Where the new line goes: after the first [Service] header and the lines of its section up to an old
      setting, the next section or the end. */
  lemma NewLineIsPlaced(before: seq<Line>, header: Line, body: seq<Line>, rest: seq<Line>, currentDir: string)
    requires forall i :: 0 <= i < |before| ==> !SpellsService(before[i])
    requires SpellsService(header)
    requires forall i :: 0 <= i < |body| ==> !Bracketed(body[i]) && !SetsDirectory(body[i])
    requires rest != [] ==> Bracketed(rest[0]) || SetsDirectory(rest[0])
    ensures var out := Rewritten(KindOf, before + [header] + body + rest, "WorkingDirectory=" + currentDir);
      before + [header] + body + ["WorkingDirectory=" + currentDir] <= out
  {
    LineIsPlaced(before, header, body, rest, "WorkingDirectory=" + currentDir);
  }
}
