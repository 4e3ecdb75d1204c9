/** The `.env` file: the upsert of the channel command and the parser of the env command. */
module EnvFile {
  import opened Options
  import opened Text

  datatype Entry = Entry(key: string, value: string)

  // ---- the line pattern -------------------------------------------------------------------------

  predicate IsKeyStart(c: char) { 'A' <= c <= 'Z' || c == '_' }

  predicate IsKeyChar(c: char) { IsKeyStart(c) || IsDigit(c) }

  /** The accepted grammar of names: `[A-Z_][A-Z0-9_]*`. */
  predicate IsKey(k: string) {
    k != "" && IsKeyStart(k[0]) && forall i :: 0 <= i < |k| ==> IsKeyChar(k[i])
  }

  const EXPORT := "export"

  predicate HasExport(s: string) { EXPORT <= s && |s| > 6 && IsSpace(s[6]) }

  /** The name that a trimmed text in front of `=` stands for: a key, or a key behind `export`. */
  function NameIn(head: string): Option<string> {
    var k := if HasExport(head) then TrimStart(head[6..]) else head;
    if IsKey(k) then Some(k) else None
  }

  /** The name that the upsert finds on a line: nothing in the pattern crosses the first `=`. */
  function LineKey(line: string): Option<string> {
    var eq := IndexOf(line, '=');
    if eq == |line| then None else NameIn(Trim(line[..eq]))
  }

  /** `export` and white space, or nothing. */
  predicate IsPrefix(x: string) { x == "" || (HasExport(x) && TrimStart(x[6..]) == "") }

  /** `^\s*(?:export\s+)?([A-Z_][A-Z0-9_]*)\s*=` as a regular language. */
  ghost predicate Matches(line: string, key: string) {
    exists a: string, x: string, b: string, rest: string :: MatchesAs(line, key, a, x, b, rest)
  }

  ghost predicate MatchesAs(line: string, key: string, a: string, x: string, b: string, rest: string) {
    && AllSpace(a) && AllSpace(b) && IsKey(key)
    && IsPrefix(x)
    && line == a + x + key + b + "=" + rest
  }

  lemma HeadEnds(head: string, rest: string)
    requires '=' !in head
    ensures var line := head + "=" + rest; IndexOf(line, '=') == |head| && line[..|head|] == head
  {
    var line := head + "=" + rest;
    assert line[..|head|] == head;
    FirstIsIndexOf(line, '=', |head|);
  }

  lemma PrefixOfName(head: string) returns (x: string)
    requires NameIn(head).Some?
    ensures IsPrefix(x) && head == x + NameIn(head).value
  {
    x := "";
    if HasExport(head) {
      var key := NameIn(head).value;
      var gap := TrimStartSplits(head[6..]);
      x := EXPORT + gap;
      assert head == EXPORT + head[6..];
      assert gap != "" by { assert gap + key == head[6..]; assert IsSpace(head[6]) && !IsSpace(key[0]); }
      assert (gap + key)[0] == gap[0] == x[6];
      assert x[6..] == gap;
      TrimStartOf(gap, "");
      assert gap + "" == gap;
    }
  }

  lemma NameBehind(x: string, key: string)
    requires IsPrefix(x) && IsKey(key)
    ensures NameIn(x + key) == Some(key) && IsTrimmed(x + key) && '=' !in x + key
  {
    if x == "" {
      assert x + key == key && key[0] != EXPORT[0];
    } else {
      var gap := TrimStartSplits(x[6..]);
      assert gap == x[6..] && x == EXPORT + gap;
      assert (x + key)[6..] == gap + key && (x + key)[6] == x[6] && (x + key)[..6] == EXPORT;
      TrimStartOf(gap, key);
      assert (x + key)[0] == EXPORT[0] && (x + key)[|x + key| - 1] == key[|key| - 1];
      assert '=' !in EXPORT && '=' !in gap;
    }
  }

  /** The line key is what the regular expression captures, on every line. */
  lemma LineKeyIsTheMatch(line: string, key: string)
    ensures LineKey(line) == Some(key) <==> Matches(line, key)
  {
    hide NameIn, Trim, TrimStart, TrimEnd, IsSpace, HasExport, IsKey;
    if LineKey(line) == Some(key) {
      var eq := IndexOf(line, '=');
      IndexOfIsFirst(line, '=');
      var x := PrefixOfName(Trim(line[..eq]));
      var a, b := TrimSplits(line[..eq]);
      NameIsKey(Trim(line[..eq]));
      assert line == line[..eq] + "=" + line[eq + 1..];
      assert a + (x + key) + b == a + x + key + b;
      assert MatchesAs(line, key, a, x, b, line[eq + 1..]);
    }
    if Matches(line, key) {
      var a, x, b, rest :| MatchesAs(line, key, a, x, b, rest);
      MatchedKey(line, key, a, x, b, rest);
    }
  }

  lemma NameIsKey(head: string)
    ensures NameIn(head).Some? ==> IsKey(NameIn(head).value)
  {
  }

  lemma MatchedKey(line: string, key: string, a: string, x: string, b: string, rest: string)
    requires MatchesAs(line, key, a, x, b, rest)
    ensures LineKey(line) == Some(key)
  {
    hide NameIn, Trim, TrimStart, TrimEnd, HasExport, IsKey;
    NameBehind(x, key);
    var head := a + (x + key) + b;
    assert head == a + x + key + b;
    TrimOf(a, x + key, b);
    HeadEnds(head, rest);
  }

  // ---- the parser -------------------------------------------------------------------------------

  predicate Quoted(v: string) { v != "" && v[0] == v[|v| - 1] && (v[0] == '"' || v[0] == '\'') }

  /** Strips matching surrounding quotes; a lone quote is both of them. */
  function Unquote(v: string): string {
    if !Quoted(v) then v else if |v| == 1 then "" else v[1..|v| - 1]
  }

  /** What a value reads as. */
  function Reads(v: string): string { Unquote(Trim(v)) }

  function ParseLine(raw: string): Option<Entry> {
    var line := Trim(raw);
    if line == "" || line[0] == '#' then None
    else
      var eq := IndexOf(line, '=');
      if eq == |line| then None else Some(Entry(Trim(line[..eq]), Reads(line[eq + 1..])))
  }

  function ParseLines(lines: seq<string>): map<string, string> {
    if lines == [] then map[]
    else
      var front := ParseLines(lines[..|lines| - 1]);
      match ParseLine(lines[|lines| - 1])
      case None => front
      case Some(e) => front[e.key := e.value]
  }

  /** A missing file parses to nothing. */
  function Parse(text: Option<string>): map<string, string> {
    match text
    case None => map[]
    case Some(t) => ParseLines(Split(t, '\n'))
  }

  lemma ParseOfNone()
    ensures ParseLines([]) == map[]
  {
  }

  lemma ParseOfNext(lines: seq<string>, n: nat)
    requires n < |lines|
    ensures ParseLines(lines[..n + 1]) == match ParseLine(lines[n])
                                          case None => ParseLines(lines[..n])
                                          case Some(e) => ParseLines(lines[..n])[e.key := e.value]
  {
    hide ParseLine;
    assert lines[..n + 1][..n] == lines[..n];
  }

  method ParseEnvFile(text: Option<string>) returns (out: map<string, string>)
    ensures out == Parse(text)
  {
    hide TrimStart, TrimEnd, Trim, IndexOf, Split, IsSpace, ParseLines;
    if text.None? { return map[]; }
    out := map[];
    var lines := Split(text.value, '\n');
    ParseOfNone();
    for n := 0 to |lines|
      invariant out == ParseLines(lines[..n])
    {
      ParseOfNext(lines, n);
      var line := Trim(lines[n]);
      if line == "" || line[0] == '#' { continue; }
      var eq := IndexOf(line, '=');
      if eq == |line| { continue; }
      var key, val := Trim(line[..eq]), Trim(line[eq + 1..]);
      if Quoted(val) {
        val := if |val| == 1 then "" else val[1..|val| - 1];
      }
      out := out[key := val];
    }
    assert lines[..|lines|] == lines;
  }

  // ---- the upsert -------------------------------------------------------------------------------

  function ValueOf(entries: seq<Entry>, key: string): Option<string> {
    if entries == [] then None
    else if entries[0].key == key then Some(entries[0].value)
    else ValueOf(entries[1..], key)
  }

  function Line(e: Entry): string { e.key + "=" + e.value }

  function Rewrite(line: string, entries: seq<Entry>): string {
    var k := LineKey(line);
    if k.Some? && ValueOf(entries, k.value).Some? then Line(Entry(k.value, ValueOf(entries, k.value).value)) else line
  }

  function Rewritten(lines: seq<string>, entries: seq<Entry>): seq<string> {
    seq(|lines|, i requires 0 <= i < |lines| => Rewrite(lines[i], entries))
  }

  /** The entries that some line names already. */
  function Updated(lines: seq<string>, entries: seq<Entry>): set<string> {
    if lines == [] then {}
    else
      var k := LineKey(lines[|lines| - 1]);
      Updated(lines[..|lines| - 1], entries)
      + if k.Some? && ValueOf(entries, k.value).Some? then {k.value} else {}
  }

  /** A line for each entry that is not updated, in order. */
  function Missing(entries: seq<Entry>, updated: set<string>): seq<string> {
    if entries == [] then []
    else
      var e := entries[|entries| - 1];
      Missing(entries[..|entries| - 1], updated) + if e.key in updated then [] else [Line(e)]
  }

  function DropBlankEnd(lines: seq<string>): seq<string> {
    if lines != [] && lines[|lines| - 1] == "" then lines[..|lines| - 1] else lines
  }

  function Existing(text: Option<string>): seq<string> {
    if text.None? then [] else Split(text.value, '\n')
  }

  function UpsertLines(lines: seq<string>, entries: seq<Entry>): seq<string> {
    DropBlankEnd(Rewritten(lines, entries) + Missing(entries, Updated(lines, entries)))
  }

  function Upsert(text: Option<string>, entries: seq<Entry>): string {
    Join(UpsertLines(Existing(text), entries), "\n") + "\n"
  }

  lemma NothingYet(entries: seq<Entry>, updated: set<string>)
    ensures Rewritten([], entries) == [] && Updated([], entries) == {} && Missing([], updated) == []
  {
  }

  lemma RewrittenNext(lines: seq<string>, entries: seq<Entry>, n: nat)
    requires n < |lines|
    ensures Rewritten(lines[..n + 1], entries) == Rewritten(lines[..n], entries) + [Rewrite(lines[n], entries)]
    ensures Updated(lines[..n + 1], entries)
         == Updated(lines[..n], entries)
            + (var k := LineKey(lines[n]); if k.Some? && ValueOf(entries, k.value).Some? then {k.value} else {})
  {
    hide Rewrite, LineKey, ValueOf;
    assert lines[..n + 1][..n] == lines[..n];
  }

  lemma MissingNext(entries: seq<Entry>, updated: set<string>, n: nat)
    requires n < |entries|
    ensures Missing(entries[..n + 1], updated)
         == Missing(entries[..n], updated) + if entries[n].key in updated then [] else [Line(entries[n])]
  {
    hide Line;
    assert entries[..n + 1][..n] == entries[..n];
  }

  method UpsertEnvFile(text: Option<string>, entries: seq<Entry>) returns (content: string)
    ensures content == Upsert(text, entries)
  {
    hide LineKey, ValueOf, Updated, Rewritten, Missing, Split, Join;
    var existing := if text.None? then [] else Split(text.value, '\n');
    var updated: set<string> := {};
    var lines: seq<string> := [];
    NothingYet(entries, updated);
    for n := 0 to |existing|
      invariant updated == Updated(existing[..n], entries)
      invariant lines == Rewritten(existing[..n], entries)
    {
      RewrittenNext(existing, entries, n);
      var k := LineKey(existing[n]);
      if k.Some? && ValueOf(entries, k.value).Some? {
        updated := updated + {k.value};
        lines := lines + [k.value + "=" + ValueOf(entries, k.value).value];
      } else {
        lines := lines + [existing[n]];
      }
    }
    assert existing[..|existing|] == existing;
    NothingYet(entries, updated);
    for n := 0 to |entries|
      invariant lines == Rewritten(existing, entries) + Missing(entries[..n], updated)
    {
      MissingNext(entries, updated, n);
      if entries[n].key !in updated {
        lines := lines + [entries[n].key + "=" + entries[n].value];
      }
    }
    assert entries[..|entries|] == entries;
    if lines != [] && lines[|lines| - 1] == "" {
      lines := lines[..|lines| - 1];
    }
    content := Join(lines, "\n") + "\n";
  }

  // ---- lines against each other -----------------------------------------------------------------

  lemma Middle(a: string, x: string, b: string, n: nat)
    requires n < |x|
    ensures (a + x + b)[..|a| + n] == a + x[..n] && (a + x + b)[|a| + n] == x[n]
  {
  }

  /** White space around a line changes neither where its first `=` is nor what is in front of it. */
  lemma HeadOfPadded(a: string, line: string, b: string)
    requires AllSpace(a) && IndexOf(line, '=') < |line|
    ensures IndexOf(a + line + b, '=') == |a| + IndexOf(line, '=')
    ensures (a + line + b)[..|a| + IndexOf(line, '=')] == a + line[..IndexOf(line, '=')]
  {
    IndexOfIsFirst(line, '=');
    NoEqualsInSpace(a);
    hide *;
    Middle(a, line, b, IndexOf(line, '='));
    FirstIsIndexOf(a + line + b, '=', |a| + IndexOf(line, '='));
  }

  lemma TrimOfPadded(a: string, head: string)
    requires AllSpace(a)
    ensures Trim(a + head) == Trim(head)
  {
    hide IsSpace, Trim;
    var c, d := TrimSplits(head);
    assert a + head == (a + c) + Trim(head) + d;
    TrimOf(a + c, Trim(head), d);
  }

  /** The parser's key of a line names the same entry as the upsert's. */
  lemma KeyOfLine(raw: string)
    requires ParseLine(raw).Some?
    ensures NameIn(ParseLine(raw).value.key) == LineKey(raw)
  {
    hide NameIn, Trim, Reads, IsSpace, IndexOf;
    var line := Trim(raw);
    var a, b := TrimSplits(raw);
    HeadOfPadded(a, line, b);
    TrimOfPadded(a, line[..IndexOf(line, '=')]);
  }

  lemma NoEqualsInSpace(a: string)
    requires AllSpace(a)
    ensures '=' !in a
  {
  }

  /** White space behind `=` and behind a value comes off a line; what is in front of `=` stays. */
  lemma TrimOfAssignment(key: string, gap: string, m: string, tail: string)
    requires key != "" && IsTrimmed(key) && AllSpace(gap) && AllSpace(tail) && IsTrimmed(m)
    requires m == "" ==> gap == ""
    ensures Trim(key + "=" + (gap + m) + tail) == key + "=" + (gap + m)
  {
    EqualsIsNoSpace();
    hide IsSpace, Trim;
    var line := key + "=" + (gap + m);
    assert line[0] == key[0] && line[|line| - 1] == if m == "" then '=' else m[|m| - 1];
    TrimOf("", line, tail);
    assert "" + line + tail == line + tail;
  }

  lemma Regroup(x: string, y: string, z: string)
    ensures x + (y + z) == x + y + z
  {
  }

  /** What trimming leaves of a written line: all up to the value's last character. */
  lemma TrimOfWritten(e: Entry) returns (kept: string)
    requires IsKey(e.key)
    ensures Trim(Line(e)) == e.key + "=" + kept && Trim(kept) == Trim(e.value)
  {
    var a, b := TrimSplits(e.value);
    var m := Trim(e.value);
    KeyIsTrimmed(e.key);
    hide IsSpace, Trim, IsKey, IsTrimmed, TrimStart, TrimEnd;
    if m == "" {
      kept := "" + m;
      TrimOfAssignment(e.key, "", m, e.value);
      assert e.key + "=" + kept == e.key + "=";
    } else {
      kept := a + m;
      TrimOfAssignment(e.key, a, m, b);
      Regroup(e.key + "=", kept, b);
      TrimOf(a, m, "");
      assert a + m + "" == kept;
    }
  }

  /** A line that the upsert writes reads as its entry, in the parser and in the upsert. */
  lemma WrittenLine(e: Entry)
    requires IsKey(e.key)
    ensures ParseLine(Line(e)) == Some(Entry(e.key, Reads(e.value)))
    ensures LineKey(Line(e)) == Some(e.key)
  {
    KeyIsTrimmed(e.key);
    TrimOfTrimmed(e.key);
    KeyIsItsName(e.key);
    hide IsSpace, TrimStart, TrimEnd, Trim, NameIn, IsKey, Unquote, IndexOf;
    var kept := TrimOfWritten(e);
    HeadEnds(e.key, e.value);
    HeadEnds(e.key, kept);
    var line := e.key + "=" + kept;
    assert line[|e.key| + 1..] == kept;
    assert e.key + "=" + e.value == Line(e);
  }

  lemma KeyIsTrimmed(key: string)
    requires IsKey(key)
    ensures key != "" && IsTrimmed(key) && '=' !in key && key[0] != '#'
  {
  }

  lemma EqualsIsNoSpace()
    ensures !IsSpace('=')
  {
  }

  /** The value of the last line that the parser reads for a key. */
  function LastFor(lines: seq<string>, key: string): Option<string> {
    if lines == [] then None
    else
      var e := ParseLine(lines[|lines| - 1]);
      if e.Some? && e.value.key == key then Some(e.value.value) else LastFor(lines[..|lines| - 1], key)
  }

  function Lookup(m: map<string, string>, key: string): Option<string> {
    if key in m then Some(m[key]) else None
  }

  /** Of several lines for a key the last one counts. */
  lemma {:induction false} LastLineWins(lines: seq<string>, key: string)
    ensures Lookup(ParseLines(lines), key) == LastFor(lines, key)
    decreases |lines|
  {
    hide ParseLine;
    if lines != [] {
      LastLineWins(lines[..|lines| - 1], key);
    }
  }

  lemma {:induction false} LastForAppend(a: seq<string>, b: seq<string>, key: string)
    ensures LastFor(a + b, key) == if LastFor(b, key).Some? then LastFor(b, key) else LastFor(a, key)
    decreases |b|
  {
    hide ParseLine;
    if b == [] {
      assert a + b == a;
    } else {
      assert (a + b)[..|a + b| - 1] == a + b[..|b| - 1];
      LastForAppend(a, b[..|b| - 1], key);
    }
  }

  // ---- what the upsert leaves -------------------------------------------------------------------

  /** Keys in the accepted grammar, each of them once, and values on one line. */
  ghost predicate Proper(entries: seq<Entry>) {
    && (forall i :: 0 <= i < |entries| ==> IsKey(entries[i].key) && '\n' !in entries[i].value)
    && (forall i, j :: 0 <= i < j < |entries| ==> entries[i].key != entries[j].key)
  }

  lemma {:induction false} ValueOfIsAnEntry(entries: seq<Entry>, key: string)
    ensures ValueOf(entries, key).Some? ==> Entry(key, ValueOf(entries, key).value) in entries
    ensures ValueOf(entries, key).None? ==> forall i :: 0 <= i < |entries| ==> entries[i].key != key
  {
    if entries != [] {
      ValueOfIsAnEntry(entries[1..], key);
      assert entries == [entries[0]] + entries[1..];
    }
  }

  lemma {:induction false} ValueOfEntry(entries: seq<Entry>, i: nat)
    requires i < |entries| && forall a, b :: 0 <= a < b < |entries| ==> entries[a].key != entries[b].key
    ensures ValueOf(entries, entries[i].key) == Some(entries[i].value)
  {
    if i > 0 {
      ValueOfEntry(entries[1..], i - 1);
    }
  }

  ghost predicate Named(entries: seq<Entry>, key: string) {
    NameIn(key).Some? && ValueOf(entries, NameIn(key).value).Some?
  }

  lemma KeyIsItsName(key: string)
    requires IsKey(key)
    ensures NameIn(key) == Some(key)
  {
    NameBehind("", key);
    assert "" + key == key;
  }

  lemma {:induction false} LastOfRewritten(lines: seq<string>, entries: seq<Entry>, key: string)
    requires Proper(entries)
    ensures LastFor(Rewritten(lines, entries), key)
         == if ValueOf(entries, key).Some? then
              if key in Updated(lines, entries) then Some(Reads(ValueOf(entries, key).value)) else None
            else if Named(entries, key) then None
            else LastFor(lines, key)
    decreases |lines|
  {
    hide ParseLine, LineKey, ValueOf, NameIn, IsKey, Reads, Line;
    if lines != [] {
      var front, last := lines[..|lines| - 1], lines[|lines| - 1];
      LastOfRewritten(front, entries, key);
      RewrittenNext(lines, entries, |lines| - 1);
      assert lines[..|lines| - 1 + 1] == lines;
      ValueOfIsAnEntry(entries, key);
      if ValueOf(entries, key).Some? { KeyIsItsName(key); }
      if ParseLine(last).Some? { KeyOfLine(last); }
      var k := LineKey(last);
      if k.Some? && ValueOf(entries, k.value).Some? {
        ValueOfIsAnEntry(entries, k.value);
        WrittenLine(Entry(k.value, ValueOf(entries, k.value).value));
      }
    }
  }

  lemma {:induction false} ValueOfAppend(front: seq<Entry>, last: Entry, key: string)
    ensures ValueOf(front + [last], key)
         == if ValueOf(front, key).Some? then ValueOf(front, key)
            else if last.key == key then Some(last.value) else None
  {
    if front == [] {
      assert front + [last] == [last];
    } else {
      assert (front + [last])[1..] == front[1..] + [last];
      ValueOfAppend(front[1..], last, key);
    }
  }

  lemma LastForNext(front: seq<string>, line: string, key: string)
    ensures LastFor(front + [line], key)
         == if ParseLine(line).Some? && ParseLine(line).value.key == key then Some(ParseLine(line).value.value)
            else LastFor(front, key)
  {
    hide ParseLine;
    assert (front + [line])[..|front|] == front;
  }

  lemma {:induction false} LastOfMissing(entries: seq<Entry>, updated: set<string>, key: string)
    requires Proper(entries)
    ensures LastFor(Missing(entries, updated), key)
         == if ValueOf(entries, key).Some? && key !in updated
            then Some(Reads(ValueOf(entries, key).value)) else None
    decreases |entries|
  {
    hide ParseLine, ValueOf, IsKey, Reads, Line, LastFor, LineKey;
    if entries == [] {
      NothingFor(key);
      ValueOfIsAnEntry(entries, key);
    } else {
      var rest, e := entries[..|entries| - 1], entries[|entries| - 1];
      assert entries == rest + [e];
      LastOfMissing(rest, updated, key);
      ValueOfAppend(rest, e, key);
      ValueOfIsAnEntry(rest, key);
      WrittenLine(e);
      assert Missing(rest, updated) + [] == Missing(rest, updated);
      LastForNext(Missing(rest, updated), Line(e), key);
    }
  }

  lemma {:induction false} LastOfBlankEnd(lines: seq<string>, key: string)
    ensures LastFor(DropBlankEnd(lines), key) == LastFor(lines, key)
  {
    if lines != [] && lines[|lines| - 1] == "" {
      assert ParseLine("") == None;
    }
  }

  lemma WrittenOnOneLine(e: Entry)
    requires IsKey(e.key) && '\n' !in e.value
    ensures '\n' !in Line(e)
  {
  }

  lemma {:induction false} MissingOnOneLine(entries: seq<Entry>, updated: set<string>)
    requires Proper(entries)
    ensures NoBreaks(Missing(entries, updated))
    decreases |entries|
  {
    hide Line, IsKey;
    if entries != [] {
      MissingOnOneLine(entries[..|entries| - 1], updated);
      WrittenOnOneLine(entries[|entries| - 1]);
    }
  }

  lemma UpsertOnOneLine(text: Option<string>, entries: seq<Entry>)
    requires Proper(entries)
    ensures NoBreaks(UpsertLines(Existing(text), entries))
  {
    hide Line, LineKey, ValueOf, IsKey, Split;
    var lines := Existing(text);
    if text.Some? { SplitHasNoSeparator(text.value, '\n'); }
    MissingOnOneLine(entries, Updated(lines, entries));
    forall i | 0 <= i < |lines| ensures '\n' !in Rewrite(lines[i], entries) {
      var k := LineKey(lines[i]);
      if k.Some? && ValueOf(entries, k.value).Some? {
        ValueOfIsAnEntry(entries, k.value);
        WrittenOnOneLine(Entry(k.value, ValueOf(entries, k.value).value));
      }
    }
  }

  /** The lines of the file that the upsert writes: its last line is blank. */
  lemma LinesOfUpsert(text: Option<string>, entries: seq<Entry>)
    requires Proper(entries)
    ensures var lines := UpsertLines(Existing(text), entries);
            Split(Upsert(text, entries), '\n') == (if lines == [] then [""] else lines) + [""]
  {
    hide UpsertLines;
    var lines := UpsertLines(Existing(text), entries);
    var body := Join(lines, "\n");
    assert body + "\n" == body + "\n" + "";
    SplitAround(body, '\n', "");
    if lines != [] {
      UpsertOnOneLine(text, entries);
      SplitOfJoin(lines, '\n');
    }
  }

  // ---- main results -----------------------------------------------------------------------------

  /**
   What every name parses to after an upsert, with duplicate, spaced, quoted and exported lines: an
   entry's key to what its value reads as, `export` before an entry's key to nothing, and every other
   name to what it parsed to before.
   */
  lemma ParseOfUpsert(text: Option<string>, entries: seq<Entry>, key: string)
    requires Proper(entries)
    ensures Lookup(Parse(Some(Upsert(text, entries))), key)
         == if ValueOf(entries, key).Some? then Some(Reads(ValueOf(entries, key).value))
            else if Named(entries, key) then None
            else Lookup(Parse(text), key)
  {
    hide ParseLine, LineKey, ValueOf, NameIn, Reads, Line, Split;
    hide Upsert, LastFor, Rewritten, Updated, Missing, ParseLines;
    var were := Existing(text);
    var a, b := Rewritten(were, entries), Missing(entries, Updated(were, entries));
    var lines := UpsertLines(were, entries);
    var file := (if lines == [] then [""] else lines) + [""];
    LinesOfUpsert(text, entries);
    LastLineWins(file, key);
    LastOfBlankEnd(file, key);
    if lines == [] { LastOfBlankEnd([""], key); }
    assert file[..|file| - 1] == if lines == [] then [""] else lines;
    LastOfBlankEnd(a + b, key);
    LastForAppend(a, b, key);
    LastOfRewritten(were, entries, key);
    LastOfMissing(entries, Updated(were, entries), key);
    ValueOfIsAnEntry(entries, key);
    if text.Some? { LastLineWins(were, key); } else { ParseOfNone(); NothingFor(key); }
  }

  lemma NothingFor(key: string)
    ensures LastFor([], key) == None
  {
  }

  /** A value comes back from the parser exactly when it is trimmed and not in quotes. */
  lemma ValueComesBackIff(text: Option<string>, entries: seq<Entry>, i: nat)
    requires Proper(entries) && i < |entries|
    ensures Lookup(Parse(Some(Upsert(text, entries))), entries[i].key) == Some(entries[i].value)
       <==> IsTrimmed(entries[i].value) && !Quoted(entries[i].value)
  {
    ParseOfUpsert(text, entries, entries[i].key);
    ValueOfEntry(entries, i);
    var v := entries[i].value;
    TrimOfTrimmed(v);
    var a, b := TrimSplits(v);
    hide Trim, ParseLines, Upsert, ValueOf;
    assert |v| == |a| + |Trim(v)| + |b|;
  }

  /** Writing the same entries again changes nothing. */
  lemma UpsertTwiceIsOnce(text: Option<string>, entries: seq<Entry>)
    requires Proper(entries)
    ensures Upsert(Some(Upsert(text, entries)), entries) == Upsert(text, entries)
  {
    hide LineKey, ValueOf, Line, Split, Rewritten, Updated, Missing, UpsertLines;
    var lines := UpsertLines(Existing(text), entries);
    LinesOfUpsert(text, entries);
    var first := if lines == [] then [""] else lines;
    SettledAfterUpsert(text, entries);
    SettledStays(first, entries);
    if lines == [] {
      assert Join(lines, "\n") == "" == Join([""], "\n");
    }
  }

  /** Every entry is on some line, and every line that names one says what the upsert would write. */
  ghost predicate Settled(lines: seq<string>, entries: seq<Entry>) {
    && Rewritten(lines, entries) == lines
    && forall i :: 0 <= i < |entries| ==> entries[i].key in Updated(lines, entries)
  }

  lemma SettledStays(lines: seq<string>, entries: seq<Entry>)
    requires Settled(lines, entries)
    ensures UpsertLines(lines + [""], entries) == lines
  {
    BlankNamesNothing(lines, entries);
    hide LineKey, ValueOf, Line, Updated, Missing, Rewritten;
    var all := lines + [""];
    NoneMissing(entries, |entries|, Updated(all, entries));
    assert entries[..|entries|] == entries && all + [] == all;
  }

  lemma BlankNamesNothing(lines: seq<string>, entries: seq<Entry>)
    ensures Rewritten(lines + [""], entries) == Rewritten(lines, entries) + [""]
    ensures Updated(lines + [""], entries) == Updated(lines, entries)
  {
    assert LineKey("") == None;
    var all := lines + [""];
    RewrittenNext(all, entries, |lines|);
    assert all[..|lines|] == lines && all[..|lines| + 1] == all;
  }

  lemma {:induction false} NoneMissing(entries: seq<Entry>, n: nat, updated: set<string>)
    requires n <= |entries| && forall i :: 0 <= i < |entries| ==> entries[i].key in updated
    ensures Missing(entries[..n], updated) == []
  {
    if n > 0 {
      NoneMissing(entries, n - 1, updated);
      MissingNext(entries, updated, n - 1);
    }
  }

  lemma RewriteTwice(line: string, entries: seq<Entry>)
    requires Proper(entries)
    ensures Rewrite(Rewrite(line, entries), entries) == Rewrite(line, entries)
    ensures LineKey(Rewrite(line, entries)) == LineKey(line)
  {
    hide LineKey, ValueOf, Line, IsKey;
    var k := LineKey(line);
    if k.Some? && ValueOf(entries, k.value).Some? {
      ValueOfIsAnEntry(entries, k.value);
      WrittenLine(Entry(k.value, ValueOf(entries, k.value).value));
    }
  }

  lemma {:induction false} RewrittenTwice(lines: seq<string>, n: nat, entries: seq<Entry>)
    requires Proper(entries) && n <= |lines|
    ensures var a := Rewritten(lines[..n], entries);
            Rewritten(a, entries) == a && Updated(a, entries) == Updated(lines[..n], entries)
  {
    if n > 0 {
      RewrittenTwice(lines, n - 1, entries);
      RewrittenNext(lines, entries, n - 1);
      RewriteTwice(lines[n - 1], entries);
      var a := Rewritten(lines[..n], entries);
      RewrittenNext(a, entries, n - 1);
      hide Rewrite, LineKey, ValueOf, Rewritten, Updated, Proper;
      assert a[..n - 1] == Rewritten(lines[..n - 1], entries) && a[..n - 1 + 1] == a;
    }
  }

  lemma {:induction false} Appended(a: seq<string>, b: seq<string>, entries: seq<Entry>)
    ensures Rewritten(a + b, entries) == Rewritten(a, entries) + Rewritten(b, entries)
    ensures Updated(a + b, entries) == Updated(a, entries) + Updated(b, entries)
    decreases |b|
  {
    hide Rewrite, LineKey, ValueOf;
    if b == [] {
      assert a + b == a;
    } else {
      assert (a + b)[..|a + b| - 1] == a + b[..|b| - 1];
      Appended(a, b[..|b| - 1], entries);
    }
  }

  lemma {:induction false} MissingSettles(entries: seq<Entry>, n: nat, updated: set<string>)
    requires Proper(entries) && n <= |entries|
    ensures var b := Missing(entries[..n], updated);
            && Rewritten(b, entries) == b
            && (forall i :: 0 <= i < n ==> entries[i].key in updated + Updated(b, entries))
  {
    hide Rewrite, LineKey, ValueOf, IsKey, Line, Rewritten, Updated, Missing;
    var b := Missing(entries[..n], updated);
    if n == 0 {
      NothingYet(entries, updated);
      assert entries[..n] == [];
    } else {
      MissingSettles(entries, n - 1, updated);
      MissingNext(entries, updated, n - 1);
      var front, line := Missing(entries[..n - 1], updated), Line(entries[n - 1]);
      EntryIsSettled(entries, n - 1);
      Appended(front, [line], entries);
      assert front + [] == front;
    }
  }

  lemma EntryIsSettled(entries: seq<Entry>, i: nat)
    requires Proper(entries) && i < |entries|
    ensures var line := [Line(entries[i])];
            Rewritten(line, entries) == line && Updated(line, entries) == {entries[i].key}
  {
    hide LineKey, ValueOf, IsKey;
    WrittenLine(entries[i]);
    ValueOfEntry(entries, i);
    assert [Line(entries[i])][..0] == [];
  }

  lemma SettledAfterUpsert(text: Option<string>, entries: seq<Entry>)
    requires Proper(entries)
    ensures var lines := UpsertLines(Existing(text), entries);
            Settled(if lines == [] then [""] else lines, entries)
  {
    hide LineKey, ValueOf, Line, IsKey, Updated, Rewritten, Missing, Existing, Proper;
    var were := Existing(text);
    var u := Updated(were, entries);
    var a, b := Rewritten(were, entries), Missing(entries, u);
    MissingSettles(entries, |entries|, u);
    assert entries[..|entries|] == entries;
    RewrittenTwice(were, |were|, entries);
    assert were[..|were|] == were;
    Appended(a, b, entries);
    var all, lines := a + b, UpsertLines(were, entries);
    if all != lines {
      assert all == lines + [""];
      BlankNamesNothing(lines, entries);
    }
    if lines == [] {
      NothingYet(entries, {});
      BlankNamesNothing([], entries);
      assert [""] == [] + [""];
    }
  }

  // ---- the lines of the file --------------------------------------------------------------------

  /** What one line may become, told by the pattern alone. */
  ghost predicate LineBecomes(entries: seq<Entry>, line: string, now: string) {
    && ((forall e :: e in entries ==> !Matches(line, e.key)) ==> now == line)
    && (forall e :: e in entries && Matches(line, e.key) ==> now == e.key + "=" + e.value)
  }

  ghost predicate NamedOnSome(lines: seq<string>, key: string) {
    exists i :: 0 <= i < |lines| && Matches(lines[i], key)
  }

  /** An assignment for each entry that no line names, in order. */
  ghost function Unnamed(lines: seq<string>, entries: seq<Entry>): seq<string> {
    if entries == [] then []
    else
      var e := entries[|entries| - 1];
      Unnamed(lines, entries[..|entries| - 1]) + if NamedOnSome(lines, e.key) then [] else [e.key + "=" + e.value]
  }

  lemma RewriteBecomes(line: string, entries: seq<Entry>)
    requires Proper(entries)
    ensures LineBecomes(entries, line, Rewrite(line, entries))
  {
    hide Matches, LineKey, ValueOf, IsKey;
    var now, k := Rewrite(line, entries), LineKey(line);
    forall e | e in entries ensures Matches(line, e.key) ==> now == e.key + "=" + e.value {
      LineKeyIsTheMatch(line, e.key);
      var i :| 0 <= i < |entries| && entries[i] == e;
      ValueOfEntry(entries, i);
    }
    if k.Some? && ValueOf(entries, k.value).Some? {
      ValueOfIsAnEntry(entries, k.value);
      LineKeyIsTheMatch(line, k.value);
    }
  }

  lemma {:induction false} UpdatedIffNamed(lines: seq<string>, entries: seq<Entry>, i: nat)
    requires Proper(entries) && i < |entries|
    ensures entries[i].key in Updated(lines, entries) <==> NamedOnSome(lines, entries[i].key)
    decreases |lines|
  {
    hide Matches, LineKey, ValueOf, IsKey;
    var key := entries[i].key;
    if lines != [] {
      var front, last := lines[..|lines| - 1], lines[|lines| - 1];
      UpdatedIffNamed(front, entries, i);
      LineKeyIsTheMatch(last, key);
      ValueOfEntry(entries, i);
      NamedOnNext(lines, key);
    }
  }

  lemma NamedOnNext(lines: seq<string>, key: string)
    requires lines != []
    ensures NamedOnSome(lines, key) <==> NamedOnSome(lines[..|lines| - 1], key) || Matches(lines[|lines| - 1], key)
  {
    hide Matches;
    var front := lines[..|lines| - 1];
    if NamedOnSome(front, key) {
      var i :| 0 <= i < |front| && Matches(front[i], key);
      assert Matches(lines[i], key);
    }
    if i :| 0 <= i < |lines| && Matches(lines[i], key) {
      assert i < |front| ==> Matches(front[i], key);
    }
  }

  lemma {:induction false} MissingIsUnnamed(lines: seq<string>, entries: seq<Entry>, n: nat)
    requires Proper(entries) && n <= |entries|
    ensures Missing(entries[..n], Updated(lines, entries)) == Unnamed(lines, entries[..n])
  {
    hide Updated, NamedOnSome, Proper;
    if n > 0 {
      MissingIsUnnamed(lines, entries, n - 1);
      MissingNext(entries, Updated(lines, entries), n - 1);
      UpdatedIffNamed(lines, entries, n - 1);
      assert entries[..n][..n - 1] == entries[..n - 1] && entries[..n][n - 1] == entries[n - 1];
    }
  }

  /**
   The written file, line by line: an old line that names an entry becomes its assignment, any other
   stays as it is, and an assignment for each entry that no line names follows in order.  The file ends
   in one line break, and in two when there is nothing but a blank line to write.
   */
  lemma LinesAfterUpsert(text: Option<string>, entries: seq<Entry>) returns (all: seq<string>)
    requires Proper(entries)
    ensures var were := if text.None? then [] else Split(text.value, '\n');
            && |all| >= |were|
            && (forall i :: 0 <= i < |were| ==> LineBecomes(entries, were[i], all[i]))
            && all[|were|..] == Unnamed(were, entries)
    ensures Split(Upsert(text, entries), '\n')
         == if all == [] then ["", ""] else if |all| > 1 && all[|all| - 1] == "" then all else all + [""]
  {
    hide LineBecomes, Rewrite, Updated, Missing, Unnamed, Split, Upsert, Proper;
    var were := Existing(text);
    var a, b := Rewritten(were, entries), Missing(entries, Updated(were, entries));
    all := a + b;
    LinesOfUpsert(text, entries);
    MissingIsUnnamed(were, entries, |entries|);
    assert entries[..|entries|] == entries;
    forall i | 0 <= i < |were| ensures LineBecomes(entries, were[i], all[i]) {
      RewriteBecomes(were[i], entries);
    }
    if all != [] && all[|all| - 1] == "" {
      assert all[..|all| - 1] + [""] == all;
    }
  }

  /** A line that names no entry, a comment for one, is in the written file as it was, at the same place. */
  lemma OtherLinesStay(text: string, entries: seq<Entry>, i: nat)
    requires Proper(entries) && i < |Split(text, '\n')|
    requires forall e :: e in entries ==> !Matches(Split(text, '\n')[i], e.key)
    ensures var now := Split(Upsert(Some(text), entries), '\n');
            i < |now| && now[i] == Split(text, '\n')[i]
  {
    hide Matches, Unnamed, Split, Upsert, Proper;
    var all := LinesAfterUpsert(Some(text), entries);
    assert LineBecomes(entries, Split(text, '\n')[i], all[i]);
  }

  // ---- what a line reads as ---------------------------------------------------------------------

  /** What trimming leaves of a value when it is trimmed together with what is in front of it. */
  lemma TrimmedTail(v: string) returns (kept: string, tail: string)
    ensures v == kept + tail && AllSpace(tail) && Trim(kept) == Trim(v)
    ensures kept == "" || !IsSpace(kept[|kept| - 1])
  {
    var c, d := TrimSplits(v);
    var m := Trim(v);
    if m == "" {
      kept, tail := "", v;
      assert Trim("") == "";
    } else {
      kept, tail := c + m, d;
      TrimOf(c, m, "");
      assert c + m + "" == kept;
    }
  }

  /** Trimming an assignment takes what is in front of its name and behind its value. */
  lemma TrimOfLine(lead: string, head: string, kept: string, tail: string)
    requires AllSpace(lead) && AllSpace(tail) && (head == "" || !IsSpace(head[0]))
    requires kept == "" || !IsSpace(kept[|kept| - 1])
    ensures Trim(lead + head + "=" + (kept + tail)) == head + "=" + kept
  {
    EqualsIsNoSpace();
    hide IsSpace, Trim;
    var line := head + "=" + kept;
    assert line[|line| - 1] == if kept == "" then '=' else kept[|kept| - 1];
    assert line[0] == if head == "" then '=' else head[0];
    TrimOf(lead, line, tail);
    Regrouped(lead, head, kept, tail);
  }

  lemma Regrouped(lead: string, head: string, kept: string, tail: string)
    ensures lead + (head + "=" + kept) + tail == lead + head + "=" + (kept + tail)
  {
  }

  lemma ParsesAs(raw: string, head: string, kept: string)
    requires Trim(raw) == head + "=" + kept && '=' !in head && (head == "" || head[0] != '#')
    ensures ParseLine(raw) == Some(Entry(Trim(head), Reads(kept)))
  {
    HeadEnds(head, kept);
    var line := head + "=" + kept;
    assert line[|head| + 1..] == kept && line[0] == if head == "" then '=' else head[0];
    hide Trim, Reads, IndexOf;
  }

  lemma TrimOfKey(key: string, b: string)
    requires IsTrimmed(key) && AllSpace(b)
    ensures Trim(key + b) == key
  {
    TrimOf("", key, b);
    assert "" + key + b == key + b;
  }

  /** A line `key = value`, with white space around the key, reads as that key and the value's reading. */
  lemma AssignmentParses(a: string, key: string, b: string, v: string)
    requires AllSpace(a) && AllSpace(b) && IsTrimmed(key) && '=' !in key && (key == "" || key[0] != '#')
    ensures ParseLine(a + key + b + "=" + v) == Some(Entry(key, Reads(v)))
  {
    var kept, tail := TrimmedTail(v);
    NoEqualsInSpace(b);
    hide IsSpace, Trim, Unquote, IndexOf, ParseLine;
    if key == "" {
      assert a + key + b == (a + b) + "";
      TrimOfLine(a + b, "", kept, tail);
      ParsesAs(a + key + b + "=" + v, "", kept);
      TrimOfTrimmed("");
    } else {
      assert (key + b)[0] == key[0];
      assert a + key + b == a + (key + b);
      TrimOfLine(a, key + b, kept, tail);
      ParsesAs(a + key + b + "=" + v, key + b, kept);
      TrimOfKey(key, b);
    }
  }

  /** The lines that parse to nothing: blank ones, comments, and those without `=`. */
  lemma ParsesToNothingIff(raw: string)
    ensures ParseLine(raw).None? <==> Trim(raw) == "" || Trim(raw)[0] == '#' || '=' !in raw
  {
    var line := Trim(raw);
    var a, b := TrimSplits(raw);
    NoEqualsInSpace(a);
    NoEqualsInSpace(b);
    IndexOfIsFirst(line, '=');
    hide Trim, IsSpace, Reads;
    assert '=' in raw <==> '=' in line;
    if IndexOf(line, '=') == |line| {
      assert line[..|line|] == line;
    }
  }

  /** A value with equal quotes around it reads as what is between them, whatever that is. */
  lemma QuotedReads(a: string, q: char, m: string, b: string)
    requires AllSpace(a) && AllSpace(b) && (q == '"' || q == '\'')
    ensures Reads(a + ([q] + m + [q]) + b) == m
    ensures Reads(a + [q] + b) == ""
  {
    QuotesAreNoSpace();
    hide Trim, IsSpace;
    var v := [q] + m + [q];
    TrimOf(a, v, b);
    TrimOf(a, [q], b);
    assert v[1..|v| - 1] == m;
  }

  lemma QuotesAreNoSpace()
    ensures !IsSpace('"') && !IsSpace('\'')
  {
  }

  /** Any other value reads as itself without the white space around it. */
  lemma PlainReads(a: string, v: string, b: string)
    requires AllSpace(a) && AllSpace(b) && IsTrimmed(v)
    requires v != "" && (v[0] == '"' || v[0] == '\'') ==> v[|v| - 1] != v[0]
    ensures Reads(a + v + b) == v
  {
    TrimOf(a, v, b);
    hide Trim;
  }
}
