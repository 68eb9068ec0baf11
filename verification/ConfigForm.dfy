/**
 The module config form of the dashboard: quoting, parsing and rebuilding a flat body of
 `key = value` lines (dashboard/src/lib/moduleConfigToml.ts). Strings are those of the
 String section of TOML v1.0.0 as far as the form writes them.
 */
module ConfigForm {
  import opened Prelude

  // ----- Characters

  predicate IsSpace(c: char) {
    || c == ' ' || '\t' <= c <= '\r' || c == '\U{A0}' || c == '\U{1680}' || '\U{2000}' <= c <= '\U{200A}'
    || c == '\U{2028}' || c == '\U{2029}' || c == '\U{202F}' || c == '\U{205F}' || c == '\U{3000}' || c == '\U{FEFF}'
  }

  /** What `.` in a pattern does not match. */
  predicate IsTerminator(c: char) { c == '\n' || c == '\r' || c == '\U{2028}' || c == '\U{2029}' }

  predicate NoTerminator(s: string) { forall c | c in s :: !IsTerminator(c) }

  function TrimStart(s: string): string {
    if s != "" && IsSpace(s[0]) then TrimStart(s[1..]) else s
  }

  function TrimEnd(s: string): string {
    if s != "" && IsSpace(s[|s| - 1]) then TrimEnd(s[..|s| - 1]) else s
  }

  function Trim(s: string): string { TrimEnd(TrimStart(s)) }

  // ----- Quoting

  /** `\` becomes `\\`. */
  function DoubleSlashes(s: string): string {
    if s == "" then "" else (if s[0] == '\\' then "\\\\" else [s[0]]) + DoubleSlashes(s[1..])
  }

  /** `"` becomes `\"`. */
  function EscapeQuotes(s: string): string {
    if s == "" then "" else (if s[0] == '"' then "\\\"" else [s[0]]) + EscapeQuotes(s[1..])
  }

  function Quoted(value: string): string { "\"" + EscapeQuotes(DoubleSlashes(value)) + "\"" }

  /** The first pass back: each `\"`, left to right, becomes `"`. */
  function UnescapeQuotes(s: string): string
    decreases |s|
  {
    if s == "" then ""
    else if |s| >= 2 && s[0] == '\\' && s[1] == '"' then "\"" + UnescapeQuotes(s[2..])
    else [s[0]] + UnescapeQuotes(s[1..])
  }

  /** The second: each `\\`, left to right, becomes `\`. */
  function HalveSlashes(s: string): string
    decreases |s|
  {
    if s == "" then ""
    else if |s| >= 2 && s[0] == '\\' && s[1] == '\\' then "\\" + HalveSlashes(s[2..])
    else [s[0]] + HalveSlashes(s[1..])
  }

  predicate Enclosed(v: string, q: char) { |v| >= 2 && v[0] == q && v[|v| - 1] == q }

  function Unquote(v: string): string {
    if Enclosed(v, '"') || Enclosed(v, '\'') then HalveSlashes(UnescapeQuotes(v[1..|v| - 1])) else v
  }

  lemma {:induction false} UnescapeInverts(s: string)
    ensures UnescapeQuotes(EscapeQuotes(s)) == s
    decreases |s|
  {
    if s != "" {
      UnescapeInverts(s[1..]);
      var e := EscapeQuotes(s[1..]);
      if s[0] == '"' {
        assert ("\\\"" + e)[2..] == e;
      } else {
        assert e != "" ==> e[0] != '"';
        assert ([s[0]] + e)[1..] == e;
      }
    }
  }

  lemma {:induction false} HalveInverts(s: string)
    ensures HalveSlashes(DoubleSlashes(s)) == s
    decreases |s|
  {
    if s != "" {
      HalveInverts(s[1..]);
      var d := DoubleSlashes(s[1..]);
      if s[0] == '\\' {
        assert ("\\\\" + d)[2..] == d;
      } else {
        assert ([s[0]] + d)[1..] == d;
      }
    }
  }

  /** The two passes of `unquote`, in their order, invert the two passes of `quote` on every string. */
  lemma UnquoteInverts(value: string)
    ensures Unquote(Quoted(value)) == value
  {
    var inner := EscapeQuotes(DoubleSlashes(value));
    assert Quoted(value)[1..|Quoted(value)| - 1] == inner;
    UnescapeInverts(DoubleSlashes(value));
    HalveInverts(value);
  }

  lemma {:induction false} EscapeChars(s: string, c: char)
    ensures c in DoubleSlashes(s) <==> c in s
    ensures c in EscapeQuotes(s) ==> c in s || c == '\\'
    ensures c in s ==> c in EscapeQuotes(s)
    decreases |s|
  {
    if s != "" {
      EscapeChars(s[1..], c);
      assert s == [s[0]] + s[1..];
    }
  }

  lemma {:induction false} UnescapeChars(s: string, c: char)
    ensures c in UnescapeQuotes(s) || c in HalveSlashes(s) ==> c in s
    decreases |s|
  {
    if s != "" {
      assert s == [s[0]] + s[1..];
      UnescapeChars(s[1..], c);
      if |s| >= 2 {
        assert s == [s[0], s[1]] + s[2..];
        UnescapeChars(s[2..], c);
      }
    }
  }

  lemma QuotedTerminators(value: string)
    ensures NoTerminator(Quoted(value)) <==> NoTerminator(value)
  {
    var inner := EscapeQuotes(DoubleSlashes(value));
    forall c ensures c in inner ==> c in value || c == '\\' {
      EscapeChars(value, c);
      EscapeChars(DoubleSlashes(value), c);
    }
    forall c ensures c in value ==> c in inner {
      EscapeChars(value, c);
      EscapeChars(DoubleSlashes(value), c);
    }
    assert forall c :: c in Quoted(value) <==> c == '"' || c in inner;
  }

  lemma UnquoteTerminators(v: string)
    requires NoTerminator(v)
    ensures NoTerminator(Unquote(v))
  {
    if Enclosed(v, '"') || Enclosed(v, '\'') {
      var inner := v[1..|v| - 1];
      forall c ensures c in Unquote(v) ==> c in inner {
        UnescapeChars(inner, c);
        UnescapeChars(UnescapeQuotes(inner), c);
      }
    }
  }

  // ----- Lines

  predicate KeyStart(c: char) { 'A' <= c <= 'Z' || 'a' <= c <= 'z' || c == '_' }

  predicate KeyChar(c: char) { KeyStart(c) || '0' <= c <= '9' || c == '-' }

  predicate IsKey(k: string) { k != "" && KeyStart(k[0]) && forall c | c in k :: KeyChar(c) }

  function KeyRun(s: string): (n: nat)
    ensures n <= |s|
  {
    if s == "" || !KeyChar(s[0]) then 0 else 1 + KeyRun(s[1..])
  }

  datatype Entry = Pair(key: string, value: string) | Raw(line: string)

  /** Spaces, a key, spaces, `=`, spaces, a value without line terminators, spaces. */
  function ReadEntry(line: string): Entry {
    var t := TrimStart(line);
    if t == "" || !KeyStart(t[0]) then Raw(line)
    else
      var rest := TrimStart(t[KeyRun(t)..]);
      if rest == "" || rest[0] != '=' then Raw(line)
      else
        var v := Trim(rest[1..]);
        if NoTerminator(v) then Pair(t[..KeyRun(t)], Unquote(v)) else Raw(line)
  }

  function SplitLines(s: string): (r: seq<string>)
    ensures r != []
  {
    SplitAt(s, '\n')
  }

  /** A blank last line is not an entry. */
  function SplitEntries(flat: string): seq<Entry> {
    var lines := SplitLines(flat);
    var n := if Trim(lines[|lines| - 1]) == "" then |lines| - 1 else |lines|;
    seq(n, i requires 0 <= i < n => ReadEntry(lines[i]))
  }

  function Pairs(entries: seq<Entry>): map<string, string> {
    if entries == [] then map[]
    else
      var e := entries[|entries| - 1];
      var m := Pairs(entries[..|entries| - 1]);
      if e.Pair? then m[e.key := e.value] else m
  }

  method ParseFlatConfig(flat: string) returns (out: map<string, string>)
    ensures out == Pairs(SplitEntries(flat))
  {
    out := map[];
    var entries := SplitEntries(flat);
    for i := 0 to |entries|
      invariant out == Pairs(entries[..i])
    {
      assert entries[..i + 1][..i] == entries[..i];
      if entries[i].Pair? { out := out[entries[i].key := entries[i].value]; }
    }
    assert entries[..|entries|] == entries;
  }

  // ----- Rebuilding the body

  datatype FieldType = Number | Bool | Text

  datatype Field = Field(key: string, ty: FieldType)

  /** `finite` is the test Number.isFinite(Number(_)); all that matters is what a number can be spelled with. */
  ghost predicate SpellsNumbers(finite: string -> bool) {
    forall v | finite(v) :: forall c | c in Trim(v) :: KeyChar(c) || c == '+' || c == '.'
  }

  function Quote(finite: string -> bool, value: string, ty: FieldType): string {
    if ty == Number && Trim(value) != "" && finite(value) then Trim(value)
    else if ty == Bool && (value == "true" || value == "false") then value
    else Quoted(value)
  }

  /** What the form shows after a save. */
  function Shown(finite: string -> bool, value: string, ty: FieldType): string {
    if ty == Number && finite(value) then Trim(value) else value
  }

  function ValueOf(values: map<string, string>, key: string): string { if key in values then values[key] else "" }

  function Line(key: string, rendered: string): string { key + " = " + rendered }

  function FieldLines(finite: string -> bool, values: map<string, string>, fields: seq<Field>): seq<string> {
    if fields == [] then []
    else
      var f := fields[|fields| - 1];
      FieldLines(finite, values, fields[..|fields| - 1])
      + if Trim(ValueOf(values, f.key)) == "" then [] else [Line(f.key, Quote(finite, ValueOf(values, f.key), f.ty))]
  }

  function Declared(fields: seq<Field>): set<string> { set f | f in fields :: f.key }

  function KeptLines(declared: set<string>, entries: seq<Entry>): seq<string> {
    if entries == [] then []
    else
      KeptLines(declared, entries[..|entries| - 1]) + KeptLine(declared, entries[|entries| - 1])
  }

  function KeptLine(declared: set<string>, e: Entry): seq<string> {
    match e
    case Pair(k, v) => (if k in declared then [] else [Line(k, Quoted(v))])
    case Raw(l) => if Trim(l) == "" then [] else [l]
  }

  function JoinLines(lines: seq<string>): string {
    if lines == [] then "" else lines[0] + "\n" + JoinLines(lines[1..])
  }

  function BuildFlatConfig(finite: string -> bool, values: map<string, string>, fields: seq<Field>,
                           original: string): string
  {
    JoinLines(FieldLines(finite, values, fields) + KeptLines(Declared(fields), SplitEntries(original)))
  }

  // ----- Lines survive joining and splitting

  lemma {:induction false} SplitOne(line: string, rest: string)
    requires '\n' !in line
    ensures SplitLines(line + "\n" + rest) == [line] + SplitLines(rest)
    decreases |line|
  {
    var s := line + "\n" + rest;
    if line == "" {
      assert s[1..] == rest;
    } else {
      assert line[0] in line;
      assert s[1..] == line[1..] + "\n" + rest;
      SplitOne(line[1..], rest);
      var r := SplitLines(s[1..]);
      assert r[1..] == SplitLines(rest) && [s[0]] + r[0] == line;
    }
  }

  lemma {:induction false} SplitJoin(lines: seq<string>)
    requires forall l | l in lines :: '\n' !in l
    ensures SplitLines(JoinLines(lines)) == lines + [""]
    decreases |lines|
  {
    if lines != [] {
      SplitJoin(lines[1..]);
      SplitOne(lines[0], JoinLines(lines[1..]));
      assert lines == [lines[0]] + lines[1..];
    }
  }

  lemma {:induction false} SplitLinesClean(s: string)
    ensures forall l | l in SplitLines(s) :: '\n' !in l
    decreases |s|
  {
    if s != "" {
      SplitLinesClean(s[1..]);
      var r := SplitLines(s[1..]);
      assert forall l | l in SplitLines(s) :: l in r || l == SplitLines(s)[0];
      assert r[0] in r;
    }
  }

  function ReadAll(lines: seq<string>): seq<Entry> { seq(|lines|, i requires 0 <= i < |lines| => ReadEntry(lines[i])) }

  lemma EntriesOfJoined(lines: seq<string>)
    requires forall l | l in lines :: '\n' !in l
    ensures SplitEntries(JoinLines(lines)) == ReadAll(lines)
  {
    SplitJoin(lines);
    assert Trim("") == "";
  }

  // ----- A rendered line reads back

  /** Neither empty nor bounded by space. */
  predicate Tight(q: string) { q != "" && !IsSpace(q[0]) && !IsSpace(q[|q| - 1]) }

  lemma {:induction false} TrimEndTight(s: string)
    ensures TrimEnd(s) != "" ==> !IsSpace(TrimEnd(s)[|TrimEnd(s)| - 1])
    ensures TrimEnd(s) <= s
    decreases |s|
  {
    if s != "" && IsSpace(s[|s| - 1]) { TrimEndTight(s[..|s| - 1]); }
  }

  lemma {:induction false} TrimStartTight(s: string)
    ensures TrimStart(s) != "" ==> !IsSpace(TrimStart(s)[0])
    decreases |s|
  {
    if s != "" && IsSpace(s[0]) { TrimStartTight(s[1..]); }
  }

  lemma TrimTight(s: string)
    ensures Trim(s) == "" || Tight(Trim(s))
  {
    TrimStartTight(s);
    TrimEndTight(TrimStart(s));
  }

  lemma {:induction false} KeyRunOf(k: string, rest: string)
    requires (forall c | c in k :: KeyChar(c)) && (rest == "" || !KeyChar(rest[0]))
    ensures KeyRun(k + rest) == |k|
    decreases |k|
  {
    if k == "" {
      assert k + rest == rest;
    } else {
      assert k[0] in k;
      assert (k + rest)[1..] == k[1..] + rest;
      KeyRunOf(k[1..], rest);
    }
  }

  lemma KeyNotSpace(c: char)
    ensures KeyChar(c) ==> !IsSpace(c) && !IsTerminator(c) && c != '"' && c != '\''
  {
  }

  lemma ReadsRendered(key: string, q: string)
    requires IsKey(key) && Tight(q) && NoTerminator(q)
    ensures ReadEntry(Line(key, q)) == Pair(key, Unquote(q))
  {
    hide IsSpace, KeyStart, Unquote, NoTerminator;
    var line := Line(key, q);
    assert key[0] in key;
    KeyNotSpace(key[0]);
    assert line[0] == key[0] && TrimStart(line) == line;
    assert !KeyChar(' ') && IsSpace(' ') && !IsSpace('=') by { SpaceFacts(); }
    KeyRunOf(key, " = " + q);
    assert line == key + (" = " + q);
    assert line[..|key|] == key && line[|key|..] == " = " + q;
    assert (" = " + q)[1..] == "= " + q;
    assert TrimStart(" = " + q) == "= " + q;
    assert ("= " + q)[1..] == " " + q && (" " + q)[1..] == q;
    assert TrimStart(" " + q) == TrimStart(q) == q;
    assert Trim(" " + q) == q;
  }

  /** The white space of `trim`, by code point: the WhiteSpace and LineTerminator tables of ECMA-262. */
  lemma SpaceTable(c: char)
    ensures IsSpace(c) <==> c as int in {
      0x09, 0x0A, 0x0B, 0x0C, 0x0D, 0x20, 0xA0, 0x1680, 0x2000, 0x2001, 0x2002, 0x2003, 0x2004, 0x2005, 0x2006,
      0x2007, 0x2008, 0x2009, 0x200A, 0x2028, 0x2029, 0x202F, 0x205F, 0x3000, 0xFEFF}
  {
  }

  lemma SpaceFacts()
    ensures !KeyChar(' ') && IsSpace(' ') && !IsSpace('=')
  {
  }

  /** The value written for a field has no line terminator unless it is written as a number. */
  predicate Writable(finite: string -> bool, value: string, ty: FieldType) {
    (ty == Number && Trim(value) != "" && finite(value)) || NoTerminator(value)
  }

  lemma QuotedTight(value: string)
    ensures Tight(Quoted(value))
  {
    assert Quoted(value)[0] == '"' && Quoted(value)[|Quoted(value)| - 1] == '"';
  }

  lemma FieldReadsBack(finite: string -> bool, f: Field, value: string)
    requires SpellsNumbers(finite) && IsKey(f.key) && Writable(finite, value, f.ty) && Trim(value) != ""
    ensures ReadEntry(Line(f.key, Quote(finite, value, f.ty))) == Pair(f.key, Shown(finite, value, f.ty))
    ensures NoTerminator(Quote(finite, value, f.ty))
  {
    hide IsSpace, KeyStart, ReadEntry, Quoted;
    var q := Quote(finite, value, f.ty);
    if f.ty == Number && finite(value) {
      TrimTight(value);
      forall c | c in q ensures !IsTerminator(c) && c != '"' && c != '\'' { KeyNotSpace(c); }
      assert q[0] in q;
      ReadsRendered(f.key, q);
    } else if f.ty == Bool && (value == "true" || value == "false") {
      forall c | c in q ensures !IsTerminator(c) && c != '"' && c != '\'' && !IsSpace(c) { LetterFacts(c); }
      assert q[0] in q && q[|q| - 1] in q;
      ReadsRendered(f.key, q);
    } else {
      QuotedTight(value);
      QuotedTerminators(value);
      UnquoteInverts(value);
      ReadsRendered(f.key, q);
    }
  }

  /**
   What a TOML reader takes a saved value for: a bare spelling of the entered text if the field is a number and
   the text is one, or if the field is a boolean and the text is one of its two words; a string otherwise.
   */
  lemma BareIff(finite: string -> bool, value: string, ty: FieldType)
    requires SpellsNumbers(finite)
    ensures var q := Quote(finite, value, ty);
      if (ty == Number && Trim(value) != "" && finite(value)) || (ty == Bool && value in {"true", "false"})
      then '"' !in q && q == Trim(value)
      else Enclosed(q, '"') && Unquote(q) == value
  {
    UnquoteInverts(value);
    if ty == Bool && value in {"true", "false"} { WordFacts(value); }
    hide Trim, Unquote, IsSpace, EscapeQuotes, DoubleSlashes, KeyStart;
  }

  lemma WordFacts(word: string)
    requires word in {"true", "false"}
    ensures Trim(word) == word && '"' !in word
  {
    hide IsSpace;
    LetterFacts(word[0]);
    LetterFacts('e');
  }

  /** Fields that are filled in are written one to a line, in the order of the manifest. */
  lemma {:induction false} LinesInOrder(finite: string -> bool, values: map<string, string>, fields: seq<Field>)
    requires forall f | f in fields :: f.key in values && Trim(values[f.key]) != ""
    ensures |FieldLines(finite, values, fields)| == |fields|
    ensures forall i | 0 <= i < |fields| :: FieldLines(finite, values, fields)[i]
              == fields[i].key + " = " + Quote(finite, values[fields[i].key], fields[i].ty)
    decreases |fields|
  {
    hide Quote, Trim;
    if fields != [] { LinesInOrder(finite, values, fields[..|fields| - 1]); }
  }

  lemma LetterFacts(c: char)
    ensures 'a' <= c <= 'z' ==> !IsSpace(c) && !IsTerminator(c)
  {
  }

  // ----- Whole bodies

  lemma {:induction false} PairsAppend(a: seq<Entry>, b: seq<Entry>)
    ensures Pairs(a + b) == Pairs(a) + Pairs(b)
    decreases |b|
  {
    if b == [] {
      assert a + b == a;
    } else {
      assert (a + b)[..|a + b| - 1] == a + b[..|b| - 1];
      PairsAppend(a, b[..|b| - 1]);
    }
  }

  lemma ReadAllAppend(a: seq<string>, b: seq<string>)
    ensures ReadAll(a + b) == ReadAll(a) + ReadAll(b)
  {
    hide ReadEntry;
  }

  /** An entry as `SplitEntries` produces it. */
  predicate FromLine(e: Entry) {
    match e
    case Pair(k, v) => IsKey(k) && NoTerminator(v)
    case Raw(l) => '\n' !in l && ReadEntry(l) == e
  }

  lemma {:induction false} KeyRunIsKey(s: string)
    ensures forall c | c in s[..KeyRun(s)] :: KeyChar(c)
    decreases |s|
  {
    if s != "" && KeyChar(s[0]) {
      KeyRunIsKey(s[1..]);
      assert s[..KeyRun(s)] == [s[0]] + s[1..][..KeyRun(s[1..])];
    }
  }

  lemma ReadFromLine(l: string)
    requires '\n' !in l
    ensures FromLine(ReadEntry(l))
  {
    var t := TrimStart(l);
    if ReadEntry(l).Pair? {
      KeyRunIsKey(t);
      UnquoteTerminators(Trim(TrimStart(t[KeyRun(t)..])[1..]));
    }
  }

  lemma EntriesFromLines(flat: string)
    ensures forall e | e in SplitEntries(flat) :: FromLine(e)
  {
    hide ReadEntry, FromLine;
    SplitLinesClean(flat);
    var lines := SplitLines(flat);
    forall i | 0 <= i < |SplitEntries(flat)| ensures FromLine(SplitEntries(flat)[i]) { ReadFromLine(lines[i]); }
  }

  lemma {:induction false} KeptPairs(declared: set<string>, entries: seq<Entry>)
    requires forall e | e in entries :: FromLine(e)
    ensures Pairs(ReadAll(KeptLines(declared, entries))) == Pairs(entries) - declared
    ensures forall l | l in KeptLines(declared, entries) :: '\n' !in l
    decreases |entries|
  {
    if entries != [] {
      hide FromLine, ReadAll, KeptLine;
      var init, e := entries[..|entries| - 1], entries[|entries| - 1];
      KeptPairs(declared, init);
      var kept, more := KeptLines(declared, init), KeptLine(declared, e);
      assert e in entries;
      KeptOne(declared, e);
      ReadAllAppend(kept, more);
      PairsAppend(ReadAll(kept), ReadAll(more));
      DropDeclared(Pairs(init), declared, e);
    }
  }

  lemma DropDeclared(m: map<string, string>, declared: set<string>, e: Entry)
    ensures (if e.Pair? then m[e.key := e.value] else m) - declared
         == (m - declared) + if e.Pair? && e.key !in declared then map[e.key := e.value] else map[]
  {
  }

  lemma KeptOne(declared: set<string>, e: Entry)
    requires FromLine(e)
    ensures Pairs(ReadAll(KeptLine(declared, e)))
         == if e.Pair? && e.key !in declared then map[e.key := e.value] else map[]
    ensures forall l | l in KeptLine(declared, e) :: '\n' !in l
  {
    hide ReadEntry, Quoted, Unquote;
    var more := KeptLine(declared, e);
    if e.Pair? && e.key !in declared {
      QuotedTight(e.value);
      QuotedTerminators(e.value);
      UnquoteInverts(e.value);
      ReadsRendered(e.key, Quoted(e.value));
      LineClean(e.key, Quoted(e.value));
      assert ReadAll(more) == [Pair(e.key, e.value)];
      assert ReadAll(more)[..0] == [];
    } else if e.Raw? && Trim(e.line) != "" {
      assert ReadAll(more) == [e];
      assert ReadAll(more)[..0] == [];
    }
  }

  lemma LineClean(key: string, q: string)
    requires IsKey(key) && NoTerminator(q)
    ensures '\n' !in Line(key, q)
  {
    assert !KeyChar('\n');
  }

  /** The declared fields that are not left blank, with what the form shows for them. */
  function FieldValues(finite: string -> bool, values: map<string, string>, fields: seq<Field>): map<string, string> {
    if fields == [] then map[]
    else
      var f := fields[|fields| - 1];
      var m := FieldValues(finite, values, fields[..|fields| - 1]);
      if Trim(ValueOf(values, f.key)) == "" then m else m[f.key := Shown(finite, ValueOf(values, f.key), f.ty)]
  }

  ghost predicate Renderable(finite: string -> bool, values: map<string, string>, fields: seq<Field>) {
    SpellsNumbers(finite) && forall f | f in fields :: IsKey(f.key) && Writable(finite, ValueOf(values, f.key), f.ty)
  }

  lemma {:induction false} FieldPairs(finite: string -> bool, values: map<string, string>, fields: seq<Field>)
    requires Renderable(finite, values, fields)
    ensures Pairs(ReadAll(FieldLines(finite, values, fields))) == FieldValues(finite, values, fields)
    ensures forall l | l in FieldLines(finite, values, fields) :: '\n' !in l
    decreases |fields|
  {
    if fields != [] {
      var init, f := fields[..|fields| - 1], fields[|fields| - 1];
      assert f in fields && forall g | g in init :: g in fields;
      FieldPairs(finite, values, init);
      var v := ValueOf(values, f.key);
      if Trim(v) != "" {
        hide ReadEntry, Quote, Writable, Shown, IsKey;
        FieldReadsBack(finite, f, v);
        var line := Line(f.key, Quote(finite, v, f.ty));
        LineClean(f.key, Quote(finite, v, f.ty));
        ReadAllAppend(FieldLines(finite, values, init), [line]);
        assert ReadAll([line]) == [Pair(f.key, Shown(finite, v, f.ty))];
        var es := ReadAll(FieldLines(finite, values, fields));
        assert es[..|es| - 1] == ReadAll(FieldLines(finite, values, init));
      } else {
        assert FieldLines(finite, values, fields) == FieldLines(finite, values, init);
      }
    }
  }

  /**
   Round trip of a form save: the rebuilt body parses to the declared values as shown,
   and to the original value of every key that is not declared. Comments and other
   lines of the original, of whatever shape, do not disturb it.
   */
  lemma SaveRoundTrip(finite: string -> bool, values: map<string, string>, fields: seq<Field>, original: string)
    requires Renderable(finite, values, fields)
    ensures Pairs(SplitEntries(BuildFlatConfig(finite, values, fields, original)))
         == FieldValues(finite, values, fields) + (Pairs(SplitEntries(original)) - Declared(fields))
  {
    hide ReadEntry, FromLine, Renderable;
    var a, b := FieldLines(finite, values, fields), KeptLines(Declared(fields), SplitEntries(original));
    EntriesFromLines(original);
    FieldPairs(finite, values, fields);
    KeptPairs(Declared(fields), SplitEntries(original));
    EntriesOfJoined(a + b);
    ReadAllAppend(a, b);
    PairsAppend(ReadAll(a), ReadAll(b));
  }

  predicate DistinctKeys(fields: seq<Field>) { forall i, j | 0 <= i < j < |fields| :: fields[i].key != fields[j].key }

  /** With distinct keys, each declared field is there exactly when it is not blank, under its own type. */
  lemma {:induction false} FieldValuesAt(finite: string -> bool, values: map<string, string>, fields: seq<Field>,
                                         i: nat)
    requires DistinctKeys(fields) && i < |fields|
    ensures var f, v, m := fields[i], ValueOf(values, fields[i].key), FieldValues(finite, values, fields);
      (f.key in m <==> Trim(v) != "") && (f.key in m ==> m[f.key] == Shown(finite, v, f.ty))
    decreases |fields|
  {
    var n := |fields| - 1;
    if i < n {
      FieldValuesAt(finite, values, fields[..n], i);
    } else {
      FieldValuesKeys(finite, values, fields[..n]);
    }
  }

  lemma {:induction false} FieldValuesKeys(finite: string -> bool, values: map<string, string>, fields: seq<Field>)
    ensures forall k | k in FieldValues(finite, values, fields) :: exists i :: 0 <= i < |fields| && fields[i].key == k
    decreases |fields|
  {
    if fields != [] { FieldValuesKeys(finite, values, fields[..|fields| - 1]); }
  }

  lemma {:induction false} PairsClean(entries: seq<Entry>)
    requires forall e | e in entries :: FromLine(e)
    ensures forall k | k in Pairs(entries) :: NoTerminator(Pairs(entries)[k])
    decreases |entries|
  {
    if entries != [] {
      PairsClean(entries[..|entries| - 1]);
      assert entries[|entries| - 1] in entries;
    }
  }

  /** A text value comes back from a save exactly when it contains no line terminator. */
  lemma TextRoundTripIff(finite: string -> bool, key: string, value: string)
    requires SpellsNumbers(finite) && IsKey(key) && Trim(value) != ""
    ensures var saved := Pairs(SplitEntries(BuildFlatConfig(finite, map[key := value], [Field(key, Text)], "")));
      (key in saved && saved[key] == value) <==> NoTerminator(value)
  {
    var fields := [Field(key, Text)];
    var body := BuildFlatConfig(finite, map[key := value], fields, "");
    if NoTerminator(value) {
      SaveRoundTrip(finite, map[key := value], fields, "");
      FieldValuesAt(finite, map[key := value], fields, 0);
      assert key in Declared(fields) by { assert fields[0] in fields; }
    } else {
      EntriesFromLines(body);
      PairsClean(SplitEntries(body));
    }
  }

  // ----- Which undeclared lines survive a save as they were written

  /** Only the escapes `\\` and `\"`, and no bare quote. */
  predicate PlainEscapes(s: string)
    decreases |s|
  {
    if s == "" then true
    else if s[0] == '\\' then |s| >= 2 && (s[1] == '\\' || s[1] == '"') && PlainEscapes(s[2..])
    else s[0] != '"' && PlainEscapes(s[1..])
  }

  /** A basic string of TOML written with no other escapes than the form writes. */
  predicate PlainString(q: string) { Enclosed(q, '"') && PlainEscapes(q[1..|q| - 1]) }

  lemma EscapeFirst(c: char, s: string)
    ensures EscapeQuotes([c] + s) == (if c == '"' then "\\\"" else [c]) + EscapeQuotes(s)
  {
    assert ([c] + s)[1..] == s;
  }

  lemma PlainFirst(c: char, s: string)
    requires PlainEscapes(s)
    ensures c == '\\' || c == '"' ==> PlainEscapes("\\" + [c] + s)
    ensures c != '\\' && c != '"' ==> PlainEscapes([c] + s)
  {
    assert ("\\" + [c] + s)[2..] == s && ([c] + s)[1..] == s;
  }

  lemma {:induction false} EscapedPlainly(value: string)
    ensures PlainEscapes(EscapeQuotes(DoubleSlashes(value)))
    decreases |value|
  {
    hide PlainEscapes, EscapeQuotes;
    if value == "" {
      EscapeEmpty();
      PlainEmpty();
    } else {
      var c, d := value[0], DoubleSlashes(value[1..]);
      EscapedPlainly(value[1..]);
      PlainFirst(c, EscapeQuotes(d));
      EscapeFirst(c, d);
      if c == '\\' {
        EscapeFirst(c, "\\" + d);
        assert DoubleSlashes(value) == [c] + ("\\" + d);
        assert [c] + ("\\" + EscapeQuotes(d)) == "\\" + [c] + EscapeQuotes(d);
      } else if c == '"' {
        assert "\\\"" + EscapeQuotes(d) == "\\" + [c] + EscapeQuotes(d);
      }
    }
  }

  lemma PlainEmpty()
    ensures PlainEscapes("")
  {
  }

  lemma DoubleFirst(c: char, s: string)
    ensures DoubleSlashes([c] + s) == (if c == '\\' then "\\\\" else [c]) + DoubleSlashes(s)
  {
    assert ([c] + s)[1..] == s;
  }

  /** The value that a plainly escaped text was made from. */
  lemma {:induction false} PlainlyEscaped(s: string) returns (value: string)
    requires PlainEscapes(s)
    ensures s == EscapeQuotes(DoubleSlashes(value))
    decreases |s|
  {
    hide EscapeQuotes, DoubleSlashes;
    if s == "" {
      value := "";
      assert EscapeQuotes(DoubleSlashes("")) == "" by { EscapeEmpty(); }
    } else {
      var n := if s[0] == '\\' then 2 else 1;
      var c := s[n - 1];
      var rest := PlainlyEscaped(s[n..]);
      value := [c] + rest;
      DoubleFirst(c, rest);
      var d := DoubleSlashes(rest);
      EscapeFirst(c, d);
      assert s == s[..n] + s[n..];
      if c == '\\' {
        EscapeFirst(c, [c] + d);
        assert "\\\\" + d == [c] + ([c] + d) && s[..n] + EscapeQuotes(d) == [c] + ([c] + EscapeQuotes(d));
      }
    }
  }

  lemma EscapeEmpty()
    ensures EscapeQuotes(DoubleSlashes("")) == ""
  {
  }

  /** Reading and writing a value again gives the same text exactly for plain strings. */
  lemma RequotedIff(q: string)
    ensures Quoted(Unquote(q)) == q <==> PlainString(q)
  {
    hide Unquote, EscapeQuotes, DoubleSlashes, PlainEscapes;
    if PlainString(q) {
      var value := PlainlyEscaped(q[1..|q| - 1]);
      assert q == Quoted(value);
      UnquoteInverts(value);
    }
    if Quoted(Unquote(q)) == q {
      EscapedPlainly(Unquote(q));
      assert q[1..|q| - 1] == EscapeQuotes(DoubleSlashes(Unquote(q)));
    }
  }

  /** A key, ` = `, and a plain string, with nothing around them. */
  predicate PlainLine(l: string) {
    var n := KeyRun(l);
    && l != "" && KeyStart(l[0]) && n + 3 <= |l| && l[n..n + 3] == " = "
    && PlainString(l[n + 3..]) && NoTerminator(l[n + 3..])
  }

  lemma PlainLineReads(l: string)
    requires PlainLine(l)
    ensures ReadEntry(l) == Pair(l[..KeyRun(l)], Unquote(l[KeyRun(l) + 3..]))
        && l == Line(l[..KeyRun(l)], l[KeyRun(l) + 3..])
  {
    var n := KeyRun(l);
    var key, q := l[..n], l[n + 3..];
    KeyRunIsKey(l);
    assert n > 0 && key[0] == l[0];
    assert l == Line(key, q) by { assert l == l[..n] + l[n..n + 3] + l[n + 3..]; }
    ReadsRendered(key, q);
  }

  lemma LineIsPlain(key: string, value: string)
    requires IsKey(key) && NoTerminator(value)
    ensures PlainLine(Line(key, Quoted(value)))
  {
    var l, q := Line(key, Quoted(value)), Quoted(value);
    assert !KeyChar(' ') by { SpaceFacts(); }
    assert l == key + (" = " + q);
    KeyRunOf(key, " = " + q);
    assert l[|key|..|key| + 3] == " = " && l[|key| + 3..] == q;
    QuotedTerminators(value);
    UnquoteInverts(value);
    RequotedIff(q);
  }

  /** One undeclared line is kept as it was exactly if the form does not read it, or if it is plain. */
  lemma KeptLineIff(declared: set<string>, l: string)
    requires '\n' !in l && Extra(declared, l)
    ensures KeptLine(declared, ReadEntry(l)) == [l] <==> ReadEntry(l).Raw? || PlainLine(l)
  {
    var e := ReadEntry(l);
    ReadFromLine(l);
    if e.Pair? {
      if PlainLine(l) {
        PlainLineReads(l);
        RequotedIff(l[KeyRun(l) + 3..]);
      } else {
        LineIsPlain(e.key, e.value);
      }
    }
  }

  /** A line that a save should carry over: not blank, and not a declared field's. */
  predicate Extra(declared: set<string>, l: string) {
    match ReadEntry(l)
    case Pair(k, _) => k !in declared
    case Raw(_) => Trim(l) != ""
  }

  function Extras(declared: set<string>, lines: seq<string>): seq<string> {
    if lines == [] then []
    else
      var l := lines[|lines| - 1];
      Extras(declared, lines[..|lines| - 1]) + if Extra(declared, l) then [l] else []
  }

  lemma {:induction false} KeptExtras(declared: set<string>, lines: seq<string>)
    requires forall l | l in lines :: '\n' !in l
    ensures |KeptLines(declared, ReadAll(lines))| == |Extras(declared, lines)|
    ensures KeptLines(declared, ReadAll(lines)) == Extras(declared, lines)
      <==> forall l | l in lines && Extra(declared, l) :: ReadEntry(l).Raw? || PlainLine(l)
    decreases |lines|
  {
    hide ReadEntry, PlainLine, Quoted;
    if lines != [] {
      var n := |lines| - 1;
      var l := lines[n];
      assert lines == lines[..n] + [l];
      KeptExtras(declared, lines[..n]);
      assert ReadAll(lines)[..n] == ReadAll(lines[..n]);
      var a, b := KeptLines(declared, ReadAll(lines[..n])), Extras(declared, lines[..n]);
      var x, y := KeptLine(declared, ReadEntry(l)), if Extra(declared, l) then [l] else [];
      if Extra(declared, l) { KeptLineIff(declared, l); }
      KeptSize(declared, l);
      AppendEqual(a, x, b, y);
    }
  }

  lemma KeptSize(declared: set<string>, l: string)
    requires '\n' !in l
    ensures |KeptLine(declared, ReadEntry(l))| == if Extra(declared, l) then 1 else 0
  {
    ReadFromLine(l);
    assert ReadEntry(l).Raw? ==> ReadEntry(l) == Raw(l);
  }

  lemma AppendEqual(a: seq<string>, x: seq<string>, b: seq<string>, y: seq<string>)
    requires |a| == |b|
    ensures a + x == b + y <==> a == b && x == y
  {
    if a + x == b + y {
      assert a == (a + x)[..|a|] && b == (b + y)[..|b|];
      assert x == (a + x)[|a|..] && y == (b + y)[|b|..];
    }
  }

  /**
   A save carries the undeclared lines of the original over word for word exactly if
   each is a comment or other line that the form does not read, or a plain string
   under a plain key. Every other value is rewritten as a string.
   */
  lemma ExtrasSurviveIff(declared: set<string>, original: string)
    ensures KeptLines(declared, SplitEntries(original)) == Extras(declared, SplitLines(original))
      <==> forall l | l in SplitLines(original) && Extra(declared, l) :: ReadEntry(l).Raw? || PlainLine(l)
  {
    hide ReadEntry, PlainLine, SplitLines, Extra, KeptLine, Trim;
    var lines := SplitLines(original);
    SplitLinesClean(original);
    KeptExtras(declared, lines);
    var n := |lines| - 1;
    if Trim(lines[n]) == "" {
      KeptBlank(declared, lines[n]);
      assert SplitEntries(original) == ReadAll(lines)[..n];
      assert ReadAll(lines)[n] == ReadEntry(lines[n]);
    } else {
      assert SplitEntries(original) == ReadAll(lines);
    }
  }

  lemma BlankIsRaw(l: string)
    requires Trim(l) == ""
    ensures ReadEntry(l) == Raw(l)
  {
    TrimStartTight(l);
    var t := TrimStart(l);
    if t != "" {
      TrimEndKeepsFirst(t);
    }
  }

  lemma KeptBlank(declared: set<string>, l: string)
    requires Trim(l) == ""
    ensures KeptLine(declared, ReadEntry(l)) == []
  {
    hide ReadEntry;
    BlankIsRaw(l);
  }

  lemma {:induction false} TrimEndKeepsFirst(s: string)
    requires s != "" && !IsSpace(s[0])
    ensures TrimEnd(s) != ""
    decreases |s|
  {
    if |s| > 1 && IsSpace(s[|s| - 1]) { TrimEndKeepsFirst(s[..|s| - 1]); }
  }

  lemma KeptRendered(key: string, q: string)
    requires IsKey(key) && Tight(q) && NoTerminator(q)
    ensures KeptLine({}, ReadEntry(Line(key, q))) == [Line(key, Quoted(Unquote(q)))]
  {
    ReadsRendered(key, q);
  }

  /** An undeclared number comes out of a save as a string. */
  lemma NumberRewritten()
    ensures KeptLine({}, ReadEntry("n = 5")) == ["n = \"5\""]
  {
    hide ReadEntry, KeptLine;
    KeptRendered("n", "5");
    assert Line("n", "5") == "n = 5";
    assert "5"[1..] == "" && DoubleSlashes("5") == "5" && EscapeQuotes("5") == "5";
    assert Quoted("5") == "\"5\"" && Line("n", "\"5\"") == "n = \"5\"";
  }

  /** An undeclared line break comes out as a backslash and a letter. */
  lemma LineBreakRewritten()
    ensures KeptLine({}, ReadEntry("s = \"\\n\"")) == ["s = \"\\\\n\""]
  {
    hide ReadEntry, KeptLine, IsSpace, IsTerminator;
    var q := "\"\\n\"";
    assert Tight(q) && NoTerminator(q) by { QuoteFacts(); }
    KeptRendered("s", q);
    assert Line("s", q) == "s = \"\\n\"";
    BreakUnquoted();
    assert Line("s", "\"\\\\n\"") == "s = \"\\\\n\"";
  }

  lemma QuoteFacts()
    ensures !IsSpace('"') && !IsTerminator('"') && !IsTerminator('\\') && !IsTerminator('n')
  {}

  lemma BreakUnquoted()
    ensures Quoted(Unquote("\"\\n\"")) == "\"\\\\n\""
  {
    var q, inner := "\"\\n\"", "\\n";
    assert q[1..|q| - 1] == inner && inner[1..] == "n" && "n"[1..] == "";
    assert UnescapeQuotes("n") == "n" && HalveSlashes("n") == "n";
    assert UnescapeQuotes(inner) == inner && HalveSlashes(inner) == inner;
    assert DoubleSlashes("n") == "n" && DoubleSlashes(inner) == "\\\\n";
    assert "\\\\n"[1..] == inner;
    assert EscapeQuotes("n") == "n" && EscapeQuotes(inner) == inner && EscapeQuotes("\\\\n") == "\\\\n";
  }
}
