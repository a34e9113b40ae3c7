/** The ini store: a text file of sections and `key=value` lines, rewritten as a
    whole on every change. */
module Ini {
  import opened Wrappers

  const MAXSTRLEN := 1024

  // ------------------------------------------------------- from bytes to lines

  predicate IsBlank(c: char) {
    c == '\r' || c == '\n' || c == ' '
  }

  /** A C string ends at its first NUL. */
  function CStr(s: string): (r: string)
    ensures '\0' !in r && r <= s
  {
    if s == [] || s[0] == '\0' then "" else [s[0]] + CStr(s[1..])
  }

  function Strip(s: string): (r: string)
    ensures forall c | c in r :: c in s && !IsBlank(c)
    ensures |r| <= |s|
  {
    if s == [] then "" else if IsBlank(s[0]) then Strip(s[1..]) else [s[0]] + Strip(s[1..])
  }

  /** How many of the characters `fgets` takes, given room for `room` of them. */
  function GetsLen(s: string, room: nat): (n: nat)
    ensures n <= |s| && n <= room
    ensures s != [] && room > 0 ==> n > 0
  {
    if s == [] || room == 0 then 0
    else if s[0] == '\n' then 1
    else 1 + GetsLen(s[1..], room - 1)
  }

  const ROOM := MAXSTRLEN - 1

  /** The pieces in which a file is read. */
  function Chunks(s: string): (r: seq<string>)
    ensures forall c | c in r :: |c| <= ROOM
  {
    if s == [] then []
    else
      var n := GetsLen(s, ROOM);
      [s[..n]] + Chunks(s[n..])
  }

  /** Blanks go, and with them whole lines of blanks. */
  function Compact(nodes: seq<string>): (r: seq<string>)
    ensures forall l | l in r :: l != "" && '\0' !in l && forall c | c in l :: !IsBlank(c)
  {
    if nodes == [] then []
    else
      var l := Strip(CStr(nodes[0]));
      (if l == "" then [] else [l]) + Compact(nodes[1..])
  }

  function Lines(file: Option<string>): seq<string> {
    if file.None? then [] else Compact(Chunks(file.value))
  }

  /** What is written for a list of lines. */
  function Emit(lines: seq<string>): string {
    if lines == [] then "" else lines[0] + "\r\n" + Emit(lines[1..])
  }

  // ------------------------------------------------------ lookup and update

  function Header(section: string): string {
    "[" + section + "]"
  }

  function Entry(key: string, value: string): string {
    key + "=" + value
  }

  predicate IsKeyLine(line: string, key: string) {
    |line| > |key| && line[..|key|] == key && line[|key|] == '='
  }

  predicate OpensSection(line: string) {
    line != "" && line[0] == '['
  }

  function FindKey(lines: seq<string>, key: string): Option<string> {
    if lines == [] || OpensSection(lines[0]) then None
    else if IsKeyLine(lines[0], key) then Some(lines[0][|key| + 1..])
    else FindKey(lines[1..], key)
  }

  /** The first line for the key in the first section of that name. */
  function Find(lines: seq<string>, header: string, key: string): Option<string> {
    if lines == [] then None
    else if lines[0] == header then FindKey(lines[1..], key)
    else Find(lines[1..], header, key)
  }

  function DropKey(lines: seq<string>, key: string): seq<string> {
    if lines == [] || OpensSection(lines[0]) then lines
    else if IsKeyLine(lines[0], key) then lines[1..]
    else [lines[0]] + DropKey(lines[1..], key)
  }

  /** The new entry goes right below the header; the old one is dropped. */
  function Update(lines: seq<string>, header: string, key: string, entry: string): seq<string> {
    if lines == [] then [header, entry]
    else if lines[0] == header then [header, entry] + DropKey(lines[1..], key)
    else [lines[0]] + Update(lines[1..], header, key, entry)
  }

  function Lookup(file: Option<string>, section: string, key: string): Option<string> {
    Find(Lines(file), Header(section), key)
  }

  function Write(file: Option<string>, section: string, key: string, value: string): Option<string> {
    Some(Emit(Update(Lines(file), Header(section), key, Entry(key, value))))
  }

  lemma KeyLineMeans(line: string, key: string)
    ensures IsKeyLine(line, key) <==> key + "=" <= line
    ensures OpensSection(line) <==> "[" <= line
  {
    if key + "=" <= line {
      assert line[..|key| + 1] == key + "=";
      assert line[..|key|] == line[..|key| + 1][..|key|];
    }
  }

  /** `n` lines that neither open a section nor are for the key are passed over. */
  lemma {:induction false} FindKeyPast(lines: seq<string>, key: string, n: nat)
    requires n <= |lines| && forall i | 0 <= i < n :: !OpensSection(lines[i]) && !IsKeyLine(lines[i], key)
    ensures FindKey(lines, key) == FindKey(lines[n..], key)
  {
    if n > 0 {
      FindKeyPast(lines[1..], key, n - 1);
      assert lines[1..][n - 1..] == lines[n..];
    } else {
      assert lines[0..] == lines;
    }
  }

  lemma {:induction false} FindPast(lines: seq<string>, header: string, key: string, n: nat)
    requires n <= |lines| && forall i | 0 <= i < n :: lines[i] != header
    ensures Find(lines, header, key) == Find(lines[n..], header, key)
  {
    if n > 0 {
      FindPast(lines[1..], header, key, n - 1);
      assert lines[1..][n - 1..] == lines[n..];
    } else {
      assert lines[0..] == lines;
    }
  }

  lemma NotFound(lines: seq<string>, header: string, key: string)
    requires forall i | 0 <= i < |lines| :: lines[i] != header
    ensures Find(lines, header, key) == None
  {
    FindPast(lines, header, key, |lines|);
  }

  /** The key is looked for below the first line that is the header, up to the line
      `e` that opens the next section, or the end. */
  lemma NoKey(lines: seq<string>, header: string, key: string, h: nat, e: nat)
    requires h < e <= |lines| && lines[h] == header && forall i | 0 <= i < h :: lines[i] != header
    requires forall i | h < i < e :: !OpensSection(lines[i]) && !IsKeyLine(lines[i], key)
    requires e < |lines| ==> OpensSection(lines[e])
    ensures Find(lines, header, key) == None
  {
    FindPast(lines, header, key, h);
    var body := lines[h + 1..];
    assert lines[h..][1..] == body;
    FindKeyPast(body, key, e - h - 1);
    assert body[e - h - 1..] == lines[e..];
  }

  lemma KeyAt(lines: seq<string>, header: string, key: string, h: nat, k: nat)
    requires h < k < |lines| && lines[h] == header && forall i | 0 <= i < h :: lines[i] != header
    requires forall i | h < i < k :: !OpensSection(lines[i]) && !IsKeyLine(lines[i], key)
    requires !OpensSection(lines[k]) && IsKeyLine(lines[k], key)
    ensures Find(lines, header, key) == Some(lines[k][|key| + 1..])
  {
    FindPast(lines, header, key, h);
    var body := lines[h + 1..];
    assert lines[h..][1..] == body;
    FindKeyPast(body, key, k - h - 1);
    assert body[k - h - 1..][0] == lines[k];
  }

  // ------------------------------------------------------------- well-formedness

  predicate Plain(s: string) {
    forall c | c in s :: !IsBlank(c) && c != '\0'
  }

  /** No blanks in the section or key, no `=` in the key, which does not begin like a
      section; and the header fits a line buffer. */
  predicate GoodName(section: string, key: string) {
    && Plain(section) && Plain(key)
    && '=' !in key && !OpensSection(key)
    && |Header(section)| <= ROOM
  }

  /** A value of one line that fits the buffer together with its key. */
  predicate GoodValue(key: string, value: string) {
    '\n' !in value && '\0' !in value && |Entry(key, value)| <= ROOM
  }

  // --------------------------------------------------- what is written is read back

  lemma StripStep(s: string)
    requires s != ""
    ensures Strip(s) == if IsBlank(s[0]) then Strip(s[1..]) else [s[0]] + Strip(s[1..])
  {
  }

  lemma StripNothing(s: string)
    requires s == ""
    ensures Strip(s) == ""
  {
  }

  lemma {:induction false} StripConcat(a: string, b: string)
    ensures Strip(a + b) == Strip(a) + Strip(b)
  {
    hide Strip, IsBlank;
    if a == "" {
      assert a + b == b;
      StripNothing(a);
    } else {
      StripConcat(a[1..], b);
      StripStep(a);
      StripStep(a + b);
      assert (a + b)[0] == a[0] && (a + b)[1..] == a[1..] + b;
      Associates([a[0]], Strip(a[1..]), Strip(b));
    }
  }

  lemma Associates(a: string, b: string, c: string)
    ensures a + (b + c) == (a + b) + c
  {
  }

  /** Carriage returns, line feeds and spaces go, anything else stays. */
  lemma OnlyBlanksGo(c: char)
    ensures Strip([c]) == if c in {'\r', '\n', ' '} then "" else [c]
  {
  }

  lemma {:induction false} StripPlain(s: string)
    requires forall c | c in s :: !IsBlank(c)
    ensures Strip(s) == s
  {
    if s != [] {
      StripPlain(s[1..]);
    }
  }

  lemma {:induction false} CStrWhole(s: string)
    requires '\0' !in s
    ensures CStr(s) == s
  {
    if s != [] {
      CStrWhole(s[1..]);
    }
  }

  /** `fgets` takes `s` whole when it ends a line there or has no room for more. */
  lemma {:induction false} GetsWhole(s: string, t: string, room: nat)
    requires '\n' !in s && |s| <= room
    ensures GetsLen(s + t, room) == |s| + GetsLen(t, room - |s|)
  {
    if s == [] {
      assert s + t == t;
    } else {
      GetsWhole(s[1..], t, room - 1);
      assert (s + t)[1..] == s[1..] + t;
    }
  }

  lemma ChunksFirst(a: string, b: string)
    requires a != [] && GetsLen(a + b, ROOM) == |a|
    ensures Chunks(a + b) == [a] + Chunks(b)
  {
  }

  lemma CompactFirst(c: string, rest: seq<string>)
    requires '\0' !in c
    ensures Compact([c] + rest) == (if Strip(c) == "" then [] else [Strip(c)]) + Compact(rest)
  {
    CStrWhole(c);
    assert ([c] + rest)[1..] == rest;
  }

  /** A written line is read back stripped, even where its end no longer fits the
      buffer and is read as a piece of its own. */
  lemma LineReadBack(l: string, rest: string)
    requires |l| <= ROOM && '\n' !in l && '\0' !in l && Strip(l) != ""
    ensures Compact(Chunks(l + "\r\n" + rest)) == [Strip(l)] + Compact(Chunks(rest))
  {
    hide Chunks, Compact, Strip;
    StripBreaks();
    assert Strip(l) + "" == Strip(l);
    if |l| + 2 <= ROOM {
      EndFits(l, rest);
      StripConcat(l, "\r\n");
      CompactFirst(l + "\r\n", Chunks(rest));
    } else if |l| + 1 == ROOM {
      EndSplit(l, rest);
      StripConcat(l, "\r");
      CompactFirst(l + "\r", ["\n"] + Chunks(rest));
      CompactFirst("\n", Chunks(rest));
    } else {
      EndApart(l, rest);
      CompactFirst(l, ["\r\n"] + Chunks(rest));
      CompactFirst("\r\n", Chunks(rest));
    }
  }

  lemma EndFits(l: string, rest: string)
    requires '\n' !in l && |l| + 2 <= ROOM
    ensures Chunks(l + "\r\n" + rest) == [l + "\r\n"] + Chunks(rest)
  {
    GetsWhole(l, "\r\n" + rest, ROOM);
    GetsBreak(rest, ROOM - |l|);
    assert l + ("\r\n" + rest) == (l + "\r\n") + rest;
    ChunksFirst(l + "\r\n", rest);
  }

  lemma EndSplit(l: string, rest: string)
    requires '\n' !in l && |l| + 1 == ROOM
    ensures Chunks(l + "\r\n" + rest) == [l + "\r"] + (["\n"] + Chunks(rest))
  {
    GetsWhole(l, "\r\n" + rest, ROOM);
    GetsBreak(rest, 1);
    assert l + ("\r\n" + rest) == (l + "\r") + ("\n" + rest) == l + "\r\n" + rest;
    ChunksFirst(l + "\r", "\n" + rest);
    ChunksFirst("\n", rest);
  }

  lemma EndApart(l: string, rest: string)
    requires '\n' !in l && |l| == ROOM
    ensures Chunks(l + "\r\n" + rest) == [l] + (["\r\n"] + Chunks(rest))
  {
    GetsWhole(l, "\r\n" + rest, ROOM);
    GetsBreak(rest, ROOM);
    assert l + ("\r\n" + rest) == l + "\r\n" + rest;
    ChunksFirst(l, "\r\n" + rest);
    ChunksFirst("\r\n", rest);
  }

  lemma GetsBreak(rest: string, room: nat)
    ensures GetsLen("\r\n" + rest, room) == if room < 2 then room else 2
  {
  }

  lemma StripBreaks()
    ensures Strip("\r\n") == "" && Strip("\r") == "" && Strip("\n") == ""
  {
  }

  /** Lines that may be written: each fits the buffer and is one non-blank line. */
  predicate Writable(lines: seq<string>) {
    forall l | l in lines :: |l| <= ROOM && '\n' !in l && '\0' !in l && Strip(l) != ""
  }

  function StripAll(lines: seq<string>): seq<string> {
    if lines == [] then [] else [Strip(lines[0])] + StripAll(lines[1..])
  }

  lemma {:induction false} EmitReadBack(lines: seq<string>)
    requires Writable(lines)
    ensures Lines(Some(Emit(lines))) == StripAll(lines)
  {
    hide Chunks, Compact, Strip;
    if lines == [] {
      NoLines();
    } else {
      EmitReadBack(lines[1..]);
      LineReadBack(lines[0], Emit(lines[1..]));
    }
  }

  lemma NoLines()
    ensures Compact(Chunks("")) == []
  {
  }

  /** The lines of any file are stripped and fit the buffer. */
  predicate Stripped(lines: seq<string>) {
    forall l | l in lines :: l != "" && |l| <= ROOM && Plain(l)
  }

  lemma {:induction false} CompactStripped(nodes: seq<string>)
    requires forall c | c in nodes :: |c| <= ROOM
    ensures Stripped(Compact(nodes))
  {
    if nodes != [] {
      CompactStripped(nodes[1..]);
    }
  }

  lemma {:induction false} DropKeyWithin(lines: seq<string>, key: string)
    ensures forall l | l in DropKey(lines, key) :: l in lines
  {
    if lines != [] {
      DropKeyWithin(lines[1..], key);
    }
  }

  lemma {:induction false} UpdateWithin(lines: seq<string>, header: string, key: string, entry: string)
    ensures forall l | l in Update(lines, header, key, entry) :: l in lines || l == header || l == entry
  {
    if lines != [] {
      UpdateWithin(lines[1..], header, key, entry);
      DropKeyWithin(lines[1..], key);
    }
  }

  lemma {:induction false} StripAllId(lines: seq<string>)
    requires Stripped(lines)
    ensures StripAll(lines) == lines
  {
    if lines != [] {
      StripPlain(lines[0]);
      StripAllId(lines[1..]);
    }
  }

  /** Stripping an updated list strips only the new entry. */
  lemma {:induction false} UpdateStripped(lines: seq<string>, header: string, key: string, entry: string)
    requires Stripped(lines) && Strip(header) == header
    ensures StripAll(Update(lines, header, key, entry)) == Update(lines, header, key, Strip(entry))
  {
    hide Strip;
    if lines == [] {
      StripAllFirst(header, [entry]);
      StripAllFirst(entry, []);
    } else if lines[0] == header {
      var d := DropKey(lines[1..], key);
      DropKeyWithin(lines[1..], key);
      StripAllId(d);
      StripAllPair(header, entry, d);
    } else {
      var u := Update(lines[1..], header, key, entry);
      UpdateStripped(lines[1..], header, key, entry);
      StripPlain(lines[0]);
      StripAllFirst(lines[0], u);
    }
  }

  lemma StripAllPair(l: string, m: string, rest: seq<string>)
    ensures StripAll([l, m] + rest) == [Strip(l), Strip(m)] + StripAll(rest)
  {
  }

  lemma StripAllFirst(l: string, rest: seq<string>)
    ensures StripAll([l] + rest) == [Strip(l)] + StripAll(rest)
  {
  }

  lemma EntryStrips(key: string, value: string)
    requires Plain(key)
    ensures Strip(Entry(key, value)) == Entry(key, Strip(value))
  {
    StripConcat(key + "=", value);
    StripPlain(key + "=");
    assert key + "=" + value == (key + "=") + value;
  }

  lemma HeaderStrips(section: string)
    requires Plain(section)
    ensures Plain(Header(section)) && Strip(Header(section)) == Header(section)
  {
    StripPlain(Header(section));
  }

  /** The lines of a written file are the updated lines of the old one. */
  lemma {:induction false} LinesAfterWrite(file: Option<string>, section: string, key: string, value: string)
    requires GoodName(section, key) && GoodValue(key, value)
    ensures Lines(Write(file, section, key, value))
            == Update(Lines(file), Header(section), key, Entry(key, Strip(value)))
  {
    var lines, h, e := Lines(file), Header(section), Entry(key, value);
    if file.Some? {
      CompactStripped(Chunks(file.value));
    }
    EntryStrips(key, value);
    HeaderStrips(section);
    UpdateWithin(lines, h, key, e);
    var u := Update(lines, h, key, e);
    forall l | l in u ensures |l| <= ROOM && '\n' !in l && '\0' !in l && Strip(l) != "" {
      if l in lines {
        StripPlain(l);
      }
    }
    EmitReadBack(u);
    UpdateStripped(lines, h, key, e);
  }

  // ----------------------------------------------------------- a write is a map update

  lemma {:induction false} DropOther(lines: seq<string>, key: string, other: string)
    requires '=' !in key && '=' !in other && key != other
    ensures FindKey(DropKey(lines, key), other) == FindKey(lines, other)
  {
    if lines != [] && !OpensSection(lines[0]) {
      if IsKeyLine(lines[0], key) {
        if IsKeyLine(lines[0], other) {
          OneKey(lines[0], key, other);
        }
      } else {
        DropOther(lines[1..], key, other);
      }
    }
  }

  /** A line has one key. */
  lemma OneKey(line: string, key: string, other: string)
    requires '=' !in key && '=' !in other && IsKeyLine(line, key) && IsKeyLine(line, other)
    ensures key == other
  {
  }

  lemma {:induction false} DropElsewhere(lines: seq<string>, key: string, header: string, other: string)
    requires OpensSection(header) && !OpensSection(key)
    ensures Find(DropKey(lines, key), header, other) == Find(lines, header, other)
  {
    if lines != [] && !OpensSection(lines[0]) && !IsKeyLine(lines[0], key) {
      DropElsewhere(lines[1..], key, header, other);
    }
  }

  lemma {:induction false} FindAfterUpdate(lines: seq<string>, section: string, key: string, value: string,
                                           section': string, key': string)
    requires '=' !in key && '=' !in key' && !OpensSection(key) && !OpensSection(key')
    ensures Find(Update(lines, Header(section), key, Entry(key, value)), Header(section'), key')
            == if (section', key') == (section, key) then Some(value)
               else Find(lines, Header(section'), key')
  {
    var h, e, h' := Header(section), Entry(key, value), Header(section');
    assert e[..|key|] == key && e[|key|] == '=' && e[|key| + 1..] == value;
    assert h == h' <==> section == section' by {
      if h == h' { assert h[1..|h| - 1] == section && h'[1..|h'| - 1] == section'; }
    }
    assert !OpensSection(e) by { assert key != "" ==> e[0] == key[0]; }
    assert OpensSection(h') && OpensSection(h);
    if lines == [] {
      var u: seq<string>, tail: seq<string> := [h, e], [e];
      assert u[0] == h && u[1..] == tail && tail[0] == e && tail[1..] == [];
      assert Update(lines, h, key, e) == u;
      assert Find(u, h', key') == if h == h' then FindKey(tail, key') else Find(tail, h', key');
      assert Find(tail[1..], h', key') == None && FindKey(tail[1..], key') == None;
      assert Find(tail, h', key') == None;
      if section' == section && key' != key && IsKeyLine(e, key') { OneKey(e, key, key'); }
    } else if lines[0] == h {
      var d := DropKey(lines[1..], key);
      assert ([h, e] + d)[1..] == [e] + d && ([e] + d)[1..] == d;
      if section' == section {
        if key' != key {
          if IsKeyLine(e, key') { OneKey(e, key, key'); }
          DropOther(lines[1..], key, key');
        }
      } else {
        DropElsewhere(lines[1..], key, h', key');
      }
    } else {
      var u := Update(lines[1..], h, key, e);
      FindAfterUpdate(lines[1..], section, key, value, section', key');
      assert ([lines[0]] + u)[1..] == u;
      if lines[0] == h' {
        FindKeyPastUpdate(lines[1..], section, key, e, key');
      }
    }
  }

  /** An update of another section does not reach into this one. */
  lemma {:induction false} FindKeyPastUpdate(lines: seq<string>, section: string, key: string, e: string, key': string)
    requires !OpensSection(e)
    ensures FindKey(Update(lines, Header(section), key, e), key') == FindKey(lines, key')
  {
    if lines != [] && lines[0] != Header(section) {
      FindKeyPastUpdate(lines[1..], section, key, e, key');
    }
  }

  /** Writing is a map update: the written key reads as the blank-stripped value, and
      every other section or key reads as before; whatever the file held. */
  lemma {:induction false} ReadAfterWrite(file: Option<string>, section: string, key: string, value: string,
                       section': string, key': string)
    requires GoodName(section, key) && GoodName(section', key') && GoodValue(key, value)
    ensures Lookup(Write(file, section, key, value), section', key')
            == if (section', key') == (section, key) then Some(Strip(value))
               else Lookup(file, section', key')
  {
    LinesAfterWrite(file, section, key, value);
    FindAfterUpdate(Lines(file), section, key, Strip(value), section', key');
  }

  /** The second of two writes to a key leaves the file it would leave alone. */
  lemma {:induction false} WriteTwice(file: Option<string>, section: string, key: string, v1: string, v2: string)
    requires GoodName(section, key) && GoodValue(key, v1)
    ensures Write(Write(file, section, key, v1), section, key, v2) == Write(file, section, key, v2)
  {
    LinesAfterWrite(file, section, key, v1);
    UpdateTwice(Lines(file), section, key, Strip(v1), Entry(key, v2));
  }

  lemma {:induction false} UpdateTwice(lines: seq<string>, section: string, key: string, v1: string, e2: string)
    requires !OpensSection(key)
    ensures var h := Header(section);
            Update(Update(lines, h, key, Entry(key, v1)), h, key, e2) == Update(lines, h, key, e2)
  {
    var h, e1 := Header(section), Entry(key, v1);
    assert IsKeyLine(e1, key) && !OpensSection(e1) by { assert key != "" ==> e1[0] == key[0]; }
    if lines == [] {
      var tail: seq<string> := [e1];
      assert [h, e1][1..] == tail && tail[1..] == [];
    } else if lines[0] == h {
      var d := DropKey(lines[1..], key);
      assert ([h, e1] + d)[1..] == [e1] + d && ([e1] + d)[1..] == d;
    } else {
      var u := Update(lines[1..], h, key, e1);
      UpdateTwice(lines[1..], section, key, v1, e2);
      assert ([lines[0]] + u)[1..] == u;
    }
  }

  // --------------------------------------------------------------- runs of writes

  datatype WriteOp = WriteOp(section: string, key: string, value: string)

  predicate GoodOps(ops: seq<WriteOp>) {
    forall i | 0 <= i < |ops| :: GoodName(ops[i].section, ops[i].key) && GoodValue(ops[i].key, ops[i].value)
  }

  function WriteAll(file: Option<string>, ops: seq<WriteOp>): Option<string> {
    if ops == [] then file
    else
      var op := ops[|ops| - 1];
      Write(WriteAll(file, ops[..|ops| - 1]), op.section, op.key, op.value)
  }

  /** The last value written to a key, if any. */
  function LastWrite(ops: seq<WriteOp>, section: string, key: string): Option<string> {
    if ops == [] then None
    else
      var op := ops[|ops| - 1];
      if (op.section, op.key) == (section, key) then Some(op.value) else LastWrite(ops[..|ops| - 1], section, key)
  }

  /** After any run of writes a key reads as the last value written to it, stripped of
      blanks, or as it did in the beginning. */
  lemma {:induction false} ReadAfterWrites(file: Option<string>, ops: seq<WriteOp>, section: string, key: string)
    requires GoodOps(ops) && GoodName(section, key)
    ensures Lookup(WriteAll(file, ops), section, key)
            == match LastWrite(ops, section, key) case Some(v) => Some(Strip(v)) case None => Lookup(file, section, key)
  {
    hide Lookup, Write, Strip, GoodName, GoodValue;
    if ops != [] {
      var before, op := ops[..|ops| - 1], ops[|ops| - 1];
      ReadAfterWrites(file, before, section, key);
      ReadAfterWrite(WriteAll(file, before), op.section, op.key, op.value, section, key);
    }
  }
}
