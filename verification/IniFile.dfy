/** The four functions of the ini store, as loops over the lines of a file. */
module IniFile {
  import opened Wrappers
  import opened CText
  import opened Ini

  // ------------------------------------------------------------- reading lines

  /** How many characters `fgets` takes at `pos`, and whether it met the end. */
  method Gets(text: string, pos: nat) returns (n: nat, eof: bool)
    requires pos <= |text|
    ensures n == GetsLen(text[pos..], ROOM) && pos + n <= |text|
    ensures eof ==> pos + n == |text|
    ensures eof <==> n < ROOM && (n == 0 || text[pos + n - 1] != '\n')
  {
    n, eof := 0, false;
    while n < ROOM
      invariant n <= ROOM && pos + n <= |text|
      invariant n > 0 ==> text[pos + n - 1] != '\n'
      invariant GetsLen(text[pos..], ROOM) == n + GetsLen(text[pos + n..], ROOM - n)
    {
      if pos + n == |text| {
        return n, true;
      }
      assert text[pos + n..][1..] == text[pos + n + 1..];
      n := n + 1;
      if text[pos + n - 1] == '\n' {
        return;
      }
    }
  }

  lemma ChunksEnd(text: string, pos: nat)
    requires pos == |text|
    ensures Chunks(text[pos..]) == []
  {
  }

  lemma ChunksStep(text: string, pos: nat, n: nat)
    requires pos < |text| && n == GetsLen(text[pos..], ROOM)
    ensures n > 0 && pos + n <= |text|
    ensures Chunks(text[pos..]) == [text[pos..pos + n]] + Chunks(text[pos + n..])
  {
    assert text[pos..][..n] == text[pos..pos + n] && text[pos..][n..] == text[pos + n..];
  }

  /** The reader's loop, until `fgets` has nothing more. */
  method ReadNodes(text: string) returns (nodes: seq<string>)
    ensures nodes == Chunks(text)
  {
    hide Chunks;
    nodes := [];
    var pos := 0;
    assert text[0..] == text;
    while true
      invariant pos <= |text| && nodes + Chunks(text[pos..]) == Chunks(text)
      decreases |text| - pos
    {
      var n, eof := Gets(text, pos);
      if n == 0 {
        ChunksEnd(text, pos);
        break;
      }
      TookPiece(nodes, text, pos, n);
      nodes := nodes + [text[pos..pos + n]];
      pos := pos + n;
    }
  }

  lemma TookPiece(nodes: seq<string>, text: string, pos: nat, n: nat)
    requires pos < |text| && n == GetsLen(text[pos..], ROOM)
    ensures n > 0 && pos + n <= |text|
    ensures nodes + Chunks(text[pos..]) == nodes + [text[pos..pos + n]] + Chunks(text[pos + n..])
  {
    ChunksStep(text, pos, n);
  }

  /** The last piece of a file, if any, neither ends a line nor fills the buffer, so
      reading it meets the end of the file. */
  predicate EndsOpen(chunks: seq<string>) {
    chunks != [] && Open(chunks[|chunks| - 1])
  }

  predicate Open(chunk: string) {
    |chunk| < ROOM && (chunk == "" || chunk[|chunk| - 1] != '\n')
  }

  /** What the writer's loop reads: unless the last piece meets the end, there is one
      empty piece more. */
  function ToEof(chunks: seq<string>): seq<string> {
    if EndsOpen(chunks) then chunks else chunks + [""]
  }

  /** The writer's loop, until the end has been met. */
  method ReadNodesToEof(text: string) returns (nodes: seq<string>)
    ensures nodes == ToEof(Chunks(text))
  {
    hide Chunks, EndsOpen, ToEof;
    nodes := [];
    var pos, eof := 0, false;
    assert text[0..] == text;
    NothingOpen();
    while !eof
      invariant pos <= |text|
      invariant !eof ==> nodes + Chunks(text[pos..]) == Chunks(text) && !EndsOpen(nodes)
      invariant eof ==> nodes == ToEof(Chunks(text))
      decreases |text| - pos, !eof
    {
      var n;
      n, eof := Gets(text, pos);
      if eof {
        LastPiece(nodes, text, pos, n);
      } else {
        TookPiece(nodes, text, pos, n);
        OpenPiece(nodes, text, pos, n);
      }
      nodes := nodes + [text[pos..pos + n]];
      pos := pos + n;
    }
  }

  lemma NothingOpen()
    ensures !EndsOpen([])
  {
  }

  lemma OpenPiece(nodes: seq<string>, text: string, pos: nat, n: nat)
    requires pos + n <= |text|
    ensures EndsOpen(nodes + [text[pos..pos + n]]) <==> n < ROOM && (n == 0 || text[pos + n - 1] != '\n')
  {
  }

  /** The piece that meets the end completes the list. */
  lemma LastPiece(nodes: seq<string>, text: string, pos: nat, n: nat)
    requires pos + n == |text| && n == GetsLen(text[pos..], ROOM)
    requires n < ROOM && (n == 0 || text[pos + n - 1] != '\n')
    requires nodes + Chunks(text[pos..]) == Chunks(text) && !EndsOpen(nodes)
    ensures nodes + [text[pos..pos + n]] == ToEof(Chunks(text))
  {
    OpenPiece(nodes, text, pos, n);
    hide Chunks, EndsOpen;
    if pos < |text| {
      ChunksStep(text, pos, n);
      ChunksEnd(text, |text|);
      assert text[pos..pos + n] == text[pos..] && Chunks(text) == nodes + [text[pos..]];
    } else {
      ChunksEnd(text, pos);
      assert text[pos..pos + n] == "" && Chunks(text) == nodes;
    }
  }

  lemma {:induction false} CompactTrailing(nodes: seq<string>)
    ensures Compact(nodes + [""]) == Compact(nodes)
  {
    if nodes == [] {
      assert nodes + [""] == [""];
      CompactFirst("", []);
    } else {
      CompactTrailing(nodes[1..]);
      assert (nodes + [""])[1..] == nodes[1..] + [""];
    }
  }

  /** The empty piece makes no difference: the writer sees the lines the reader sees. */
  lemma SameLines(text: string)
    ensures Compact(ToEof(Chunks(text))) == Compact(Chunks(text))
  {
    hide Compact, Chunks;
    CompactTrailing(Chunks(text));
  }

  /** `strlen` */
  method StrLen(s: string) returns (len: nat)
    ensures len <= |s| && s[..len] == CStr(s)
  {
    hide CStr;
    len := 0;
    assert s[..0] == "" && s[0..] == s;
    while len < |s| && s[len] != '\0'
      invariant len <= |s| && CStr(s) == s[..len] + CStr(s[len..])
    {
      CStrStep(s, len);
      len := len + 1;
    }
    CStrEnd(s, len);
  }

  method StripBlanks(s: string) returns (t: string)
    ensures t == Strip(CStr(s))
  {
    hide CStr, Strip;
    var len := StrLen(s);
    ghost var line := s[..len];
    t := "";
    assert line[0..] == line;
    for i := 0 to len
      invariant t + Strip(line[i..]) == Strip(line)
    {
      StripOne(t, line, i);
      if s[i] != '\r' && s[i] != '\n' && s[i] != ' ' {
        t := t + [s[i]];
      }
    }
    StripNothing(line[len..]);
  }

  lemma StripOne(t: string, line: string, i: nat)
    requires i < |line|
    ensures t + Strip(line[i..]) == (if IsBlank(line[i]) then t else t + [line[i]]) + Strip(line[i + 1..])
  {
    StripStep(line[i..]);
    hide Strip;
    assert line[i..][1..] == line[i + 1..];
    if !IsBlank(line[i]) {
      Associates(t, [line[i]], Strip(line[i + 1..]));
    }
  }

  lemma CStrStep(s: string, len: nat)
    requires len < |s| && s[len] != '\0'
    ensures s[..len] + CStr(s[len..]) == s[..len + 1] + CStr(s[len + 1..])
  {
  }

  lemma CStrEnd(s: string, len: nat)
    requires len == |s| || (len < |s| && s[len] == '\0')
    ensures s[..len] + CStr(s[len..]) == s[..len]
  {
  }

  /** Strips every line in place and takes the empty ones off the list. */
  method CompactNodes(nodes: seq<string>) returns (lines: seq<string>)
    ensures lines == Compact(nodes)
  {
    hide Compact;
    lines := nodes;
    var i := 0;
    assert lines[..0] == [] && lines[0..] == lines;
    while i < |lines|
      invariant i <= |lines| && lines[..i] + Compact(lines[i..]) == Compact(nodes)
      decreases |lines| - i
    {
      var t := StripBlanks(lines[i]);
      ghost var done, rest := lines[..i], lines[i + 1..];
      CompactStep(lines, i);
      if t == "" {
        lines := lines[..i] + lines[i + 1..];
        assert lines[..i] == done && lines[i..] == rest;
      } else {
        lines := lines[i := t];
        i := i + 1;
        assert lines[..i] == done + [t] && lines[i..] == rest;
      }
    }
    CompactNothing(lines[i..]);
  }

  lemma CompactStep(lines: seq<string>, i: nat)
    requires i < |lines|
    ensures var t := Strip(CStr(lines[i]));
            lines[..i] + Compact(lines[i..]) == lines[..i] + (if t == "" then [] else [t]) + Compact(lines[i + 1..])
  {
  }

  lemma CompactNothing(nodes: seq<string>)
    requires nodes == []
    ensures Compact(nodes) == []
  {
  }

  // ------------------------------------------------------------- the functions

  /** `strncpy` into a result of `resultLen` bytes; a longer value is cut. */
  function Fitted(v: string, resultLen: nat): string {
    if |v| > resultLen then v[..resultLen] else v
  }

  function ReadString(file: Option<string>, section: string, indent: string, default: string, resultLen: nat): string {
    match Lookup(file, section, indent)
    case None => default
    case Some(v) => Fitted(v, resultLen)
  }

  lemma AllKeyLines(lines: seq<string>, indent: string)
    ensures forall i | 0 <= i < |lines| ::
              (IsKeyLine(lines[i], indent) <==> indent + "=" <= lines[i]) && (OpensSection(lines[i]) <==> "[" <= lines[i])
  {
    forall i | 0 <= i < |lines| {
      KeyLineMeans(lines[i], indent);
    }
  }

  function ReadInteger(file: Option<string>, section: string, indent: string, default: int): int {
    var str := ReadString(file, section, indent, "NULL", 1024);
    if str == "NULL" || str == "" || !AllDigits(str) then default else Value(str)
  }

  /** An integer is read back if it is not negative; a negative one reads as the
      default. */
  lemma {:induction false} IntegerReadBack(file: Option<string>, section: string, key: string, n: int, default: int)
    requires GoodName(section, key) && |Entry(key, IntText(n))| <= ROOM
    ensures ReadInteger(Write(file, section, key, IntText(n)), section, key, default) == if n >= 0 then n else default
  {
    hide Lookup, Ini.Write, Strip;
    var s := IntText(n);
    forall c | c in s ensures !IsBlank(c) && c != '\0' {
    }
    StripPlain(s);
    ReadAfterWrite(file, section, key, s, section, key);
    if n >= 0 {
      ValueOfDecimal(n);
      assert s[0] != 'N';
    }
  }

  lemma NothingRead(lines: seq<string>, section: string, indent: string, h: nat, e: nat)
    requires h < e <= |lines| && lines[h] == "[" + section + "]"
    requires forall i | 0 <= i < h :: lines[i] != "[" + section + "]"
    requires forall i | h < i < e :: !("[" <= lines[i]) && !(indent + "=" <= lines[i])
    requires e < |lines| ==> "[" <= lines[e]
    ensures Find(lines, Header(section), indent) == None
  {
    AllKeyLines(lines, indent);
    NoKey(lines, Header(section), indent, h, e);
  }

  lemma LineRead(lines: seq<string>, section: string, indent: string, h: nat, k: nat)
    requires h < k < |lines| && lines[h] == "[" + section + "]"
    requires forall i | 0 <= i < h :: lines[i] != "[" + section + "]"
    requires forall i | h < i < k :: !("[" <= lines[i]) && !(indent + "=" <= lines[i])
    requires !("[" <= lines[k]) && indent + "=" <= lines[k]
    ensures |lines[k]| >= |indent| + 1 && Find(lines, Header(section), indent) == Some(lines[k][|indent| + 1..])
  {
    AllKeyLines(lines, indent);
    KeyAt(lines, Header(section), indent, h, k);
  }

  lemma NoSectionRead(lines: seq<string>, section: string, indent: string)
    requires forall i | 0 <= i < |lines| :: lines[i] != "[" + section + "]"
    ensures Find(lines, Header(section), indent) == None
  {
    NotFound(lines, Header(section), indent);
  }

  lemma NoLine(section: string, indent: string)
    ensures Lookup(None, section, indent) == None
  {
  }

  /** The reader's pass over the list. */
  method FindInLines(lines: seq<string>, sectionStr: string, indent: string, default: string, resultLen: nat)
    returns (result: string)
    requires forall k | 0 <= k < |lines| :: lines[k] != ""
    ensures result == match Find(lines, sectionStr, indent)
                      case None => default
                      case Some(v) => Fitted(v, resultLen)
  {
    hide Find, FindKey, IsKeyLine, Fitted;
    var found := false;
    assert lines[0..] == lines;
    for i := 0 to |lines|
      invariant Find(lines, sectionStr, indent)
                == if found then FindKey(lines[i..], indent) else Find(lines[i..], sectionStr, indent)
    {
      var p := lines[i];
      FindStep(lines, i, sectionStr, indent);
      if !found {
        if p == sectionStr {
          found := true;
        }
      } else if p[0] == '[' {
        return default;
      } else if indent <= p && |p| > |indent| && p[|indent|] == '=' {
        result := Fitted(p[|indent| + 1..], resultLen);
        return;
      }
    }
    FindEnd(lines[|lines|..], sectionStr, indent);
    result := default;
  }

  lemma FindEnd(lines: seq<string>, header: string, key: string)
    requires lines == []
    ensures Find(lines, header, key) == FindKey(lines, key) == None
  {
  }

  lemma FindStep(lines: seq<string>, i: nat, header: string, key: string)
    requires i < |lines| && lines[i] != ""
    ensures Find(lines[i..], header, key)
            == if lines[i] == header then FindKey(lines[i + 1..], key) else Find(lines[i + 1..], header, key)
    ensures FindKey(lines[i..], key)
            == if lines[i][0] == '[' then None
               else if key <= lines[i] && |lines[i]| > |key| && lines[i][|key|] == '=' then Some(lines[i][|key| + 1..])
               else FindKey(lines[i + 1..], key)
  {
    assert lines[i..][0] == lines[i] && lines[i..][1..] == lines[i + 1..];
  }

  method OnlyDigits(str: string) returns (ok: bool)
    ensures ok <==> AllDigits(str)
  {
    for i := 0 to |str|
      invariant forall k | 0 <= k < i :: IsDigit(str[k])
    {
      if str[i] < '0' || str[i] > '9' {
        return false;
      }
    }
    ok := true;
  }

  class IniStore {
    /** The file, if there is one. */
    var content: Option<string>

    constructor (content: Option<string>)
      ensures this.content == content
    {
      this.content := content;
    }

    method IniReadString(section: string, indent: string, default: string, resultLen: nat) returns (result: string)
      requires |Header(section)| < MAXSTRLEN
      ensures result == ReadString(content, section, indent, default, resultLen)
      ensures content == None ==> result == default
      ensures (forall i | 0 <= i < |Lines(content)| :: Lines(content)[i] != "[" + section + "]") ==> result == default
    {
      hide Chunks, Strip, CStr, IsBlank, Find;
      NoLine(section, indent);
      if forall i | 0 <= i < |Lines(content)| :: Lines(content)[i] != "[" + section + "]" {
        NoSectionRead(Lines(content), section, indent);
      }
      var sectionStr := Header(section);
      if content == None {
        return default;
      }
      var nodes := ReadNodes(content.value);
      var lines := CompactNodes(nodes);
      forall k | 0 <= k < |lines| ensures lines[k] != "" {
        assert lines[k] in lines;
      }
      result := FindInLines(lines, sectionStr, indent, default, resultLen);
    }

    method IniReadInteger(section: string, indent: string, default: int) returns (result: int)
      requires |Header(section)| < MAXSTRLEN
      ensures result == ReadInteger(content, section, indent, default)
      ensures content == None ==> result == default
      ensures (forall i | 0 <= i < |Lines(content)| :: Lines(content)[i] != "[" + section + "]") ==> result == default
    {
      hide ReadString, Value, AllDigits;
      var str := IniReadString(section, indent, "NULL", 1024);
      if str == "NULL" || |str| == 0 {
        return default;
      }
      var digits := OnlyDigits(str);
      if !digits {
        return default;
      }
      result := Value(str);
    }

    method IniWriteString(section: string, indent: string, value: string)
      requires |Header(section)| < MAXSTRLEN && |Entry(indent, value)| < MAXSTRLEN
      modifies this
      ensures content == Write(old(content), section, indent, value)
    {
      var sectionStr := Header(section);
      var entry := Entry(indent, value);
      assert entry != "";
      if content == None {
        content := Some(sectionStr + "\r\n" + entry + "\r\n");
        NewFile(sectionStr, entry);
        return;
      }
      hide Update, Compact, Emit, Chunks, ToEof, Header, Entry;
      var nodes := ReadNodesToEof(content.value);
      SameLines(content.value);
      var lines := CompactNodes(nodes);
      lines := UpdateLines(lines, sectionStr, indent, entry);
      var text := PutLines(lines);
      content := Some(text);
    }

    method IniWriteInteger(section: string, indent: string, value: int)
      requires |Header(section)| < MAXSTRLEN && |Entry(indent, IntText(value))| < MAXSTRLEN
      modifies this
      ensures content == Write(old(content), section, indent, IntText(value))
    {
      IniWriteString(section, indent, IntText(value));
    }
  }

  // ------------------------------------------------------ what callers can rely on

  /** The first section of that name is lines `h` to `e` and has no line for the key:
      both readers give the default. */
  method ReadMissing(store: IniStore, section: string, indent: string, default: string, number: int, resultLen: nat,
                     ghost h: nat, ghost e: nat)
    returns (result: string, int32: int)
    requires |Header(section)| < MAXSTRLEN
    requires h < e <= |Lines(store.content)| && Lines(store.content)[h] == "[" + section + "]"
    requires forall i | 0 <= i < h :: Lines(store.content)[i] != "[" + section + "]"
    requires forall i | h < i < e :: !("[" <= Lines(store.content)[i]) && !(indent + "=" <= Lines(store.content)[i])
    requires e < |Lines(store.content)| ==> "[" <= Lines(store.content)[e]
    ensures result == default && int32 == number
  {
    hide Lines, Find;
    NothingRead(Lines(store.content), section, indent, h, e);
    result := store.IniReadString(section, indent, default, resultLen);
    int32 := store.IniReadInteger(section, indent, number);
  }

  /** Line `k` is the first for the key in the first section of that name: the readers
      give what follows the `=`, cut to the buffer, or as a number if it is one. */
  method ReadPresent(store: IniStore, section: string, indent: string, default: string, number: int, resultLen: nat,
                     ghost h: nat, ghost k: nat)
    returns (result: string, int32: int)
    requires |Header(section)| < MAXSTRLEN
    requires h < k < |Lines(store.content)| && Lines(store.content)[h] == "[" + section + "]"
    requires forall i | 0 <= i < h :: Lines(store.content)[i] != "[" + section + "]"
    requires forall i | h < i < k :: !("[" <= Lines(store.content)[i]) && !(indent + "=" <= Lines(store.content)[i])
    requires !("[" <= Lines(store.content)[k]) && indent + "=" <= Lines(store.content)[k]
    ensures |indent| + 1 <= |Lines(store.content)[k]|
    ensures var v := Lines(store.content)[k][|indent| + 1..];
            && result == (if |v| > resultLen then v[..resultLen] else v)
            && (v == "" || (|v| <= 1024 && exists i | 0 <= i < |v| :: !('0' <= v[i] <= '9')) ==> int32 == number)
            && (forall n: nat | 0 < |v| <= 1024 && v == Decimal(n) :: int32 == n)
  {
    hide Lines, Find, Value, Decimal;
    LineRead(Lines(store.content), section, indent, h, k);
    result := store.IniReadString(section, indent, default, resultLen);
    int32 := store.IniReadInteger(section, indent, number);
    ghost var v := Lines(store.content)[k][|indent| + 1..];
    forall n: nat | 0 < |v| <= 1024 && v == Decimal(n) ensures int32 == n {
      ValueOfDecimal(n);
      assert v[0] in v && v[0] != 'N';
    }
  }

  /** After any run of writes a key reads as the last value written to it, without its
      blanks and cut to the buffer; a key that was not written reads as before. */
  method WritesThenRead(store: IniStore, ops: seq<WriteOp>, section: string, key: string, default: string, resultLen: nat)
    returns (before: string, after: string)
    requires GoodOps(ops) && GoodName(section, key)
    modifies store
    ensures forall i | 0 <= i < |ops| && ops[i].section == section && ops[i].key == key
                       && (forall j | i < j < |ops| :: ops[j].section != section || ops[j].key != key) ::
              var v := Strip(ops[i].value);
              after == if |v| > resultLen then v[..resultLen] else v
    ensures (forall i | 0 <= i < |ops| :: ops[i].section != section || ops[i].key != key) ==> after == before
  {
    hide Ini.Write, Lookup, Strip, WriteAll;
    before := store.IniReadString(section, key, default, resultLen);
    ghost var file := store.content;
    NothingWritten(file);
    for i := 0 to |ops|
      invariant store.content == WriteAll(file, ops[..i])
    {
      WriteAllStep(file, ops, i);
      store.IniWriteString(ops[i].section, ops[i].key, ops[i].value);
    }
    assert ops[..|ops|] == ops;
    ReadAfterWrites(file, ops, section, key);
    after := store.IniReadString(section, key, default, resultLen);
    forall i | 0 <= i < |ops| && ops[i].section == section && ops[i].key == key
               && (forall j | i < j < |ops| :: ops[j].section != section || ops[j].key != key)
      ensures var v := Strip(ops[i].value); after == if |v| > resultLen then v[..resultLen] else v
    {
      LastWriteAt(ops, section, key, i);
    }
    if forall i | 0 <= i < |ops| :: ops[i].section != section || ops[i].key != key {
      NeverWritten(ops, section, key);
    }
  }

  lemma NothingWritten(file: Option<string>)
    ensures WriteAll(file, []) == file
  {
  }

  lemma WriteAllStep(file: Option<string>, ops: seq<WriteOp>, i: nat)
    requires i < |ops|
    ensures WriteAll(file, ops[..i + 1]) == Write(WriteAll(file, ops[..i]), ops[i].section, ops[i].key, ops[i].value)
  {
    assert ops[..i + 1][..i] == ops[..i];
  }

  lemma {:induction false} LastWriteAt(ops: seq<WriteOp>, section: string, key: string, i: nat)
    requires i < |ops| && ops[i].section == section && ops[i].key == key
    requires forall j | i < j < |ops| :: ops[j].section != section || ops[j].key != key
    ensures LastWrite(ops, section, key) == Some(ops[i].value)
    decreases |ops|
  {
    if i < |ops| - 1 {
      LastWriteAt(ops[..|ops| - 1], section, key, i);
    }
  }

  lemma {:induction false} NeverWritten(ops: seq<WriteOp>, section: string, key: string)
    requires forall i | 0 <= i < |ops| :: ops[i].section != section || ops[i].key != key
    ensures LastWrite(ops, section, key) == None
  {
    if ops != [] {
      NeverWritten(ops[..|ops| - 1], section, key);
    }
  }

  /** The updated lines, when the first `i` are final. */
  ghost function Pending(lines: seq<string>, i: nat, found: bool, header: string, key: string, entry: string): seq<string>
    requires i <= |lines|
  {
    lines[..i] + if found then DropKey(lines[i..], key) else Update(lines[i..], header, key, entry)
  }

  lemma PendingStep(lines: seq<string>, i: nat, found: bool, header: string, key: string, entry: string)
    requires i < |lines| && lines[i] != ""
    ensures var p := lines[i];
            var inserted := lines[..i + 1] + [entry] + lines[i + 1..];
            var removed := lines[..i] + lines[i + 1..];
            Pending(lines, i, found, header, key, entry) ==
              if !found then
                if p == header then Pending(inserted, i + 2, true, header, key, entry)
                else Pending(lines, i + 1, false, header, key, entry)
              else if p[0] == '[' then Pending(lines, |lines|, true, header, key, entry)
              else if IsKeyLine(p, key) then Pending(removed, |removed|, true, header, key, entry)
              else Pending(lines, i + 1, true, header, key, entry)
  {
    var p, rest := lines[i], lines[i + 1..];
    assert lines[i..][0] == p && lines[i..][1..] == rest;
    if found {
      FoundStep(lines, i, key);
      hide DropKey, Update, IsKeyLine;
      if p[0] == '[' {
        assert lines[|lines|..] == [] && lines[..|lines|] == lines;
      } else if IsKeyLine(p, key) {
        var removed := lines[..i] + rest;
        assert removed[|removed|..] == [] && removed[..|removed|] == removed;
      }
    } else {
      UpdateStep(lines, i, header, key, entry);
      hide DropKey, Update;
      if p == header {
        var inserted := lines[..i + 1] + [entry] + rest;
        assert inserted[..i + 2] == lines[..i + 1] + [entry] && inserted[i + 2..] == rest;
      }
    }
  }

  lemma FoundStep(lines: seq<string>, i: nat, key: string)
    requires i < |lines| && lines[i] != ""
    ensures var p, rest := lines[i], lines[i + 1..];
            lines[..i] + DropKey(lines[i..], key) ==
              if p[0] == '[' then lines
              else if IsKeyLine(p, key) then lines[..i] + rest
              else lines[..i + 1] + DropKey(rest, key)
    ensures DropKey([], key) == []
  {
    var p, rest := lines[i], lines[i + 1..];
    assert lines[i..][0] == p && lines[i..][1..] == rest;
    assert DropKey(lines[i..], key) == if p[0] == '[' then lines[i..] else if IsKeyLine(p, key) then rest
                                       else [p] + DropKey(rest, key);
    hide DropKey, IsKeyLine;
    assert lines[..i] + lines[i..] == lines && lines[..i + 1] == lines[..i] + [p];
  }

  lemma UpdateStep(lines: seq<string>, i: nat, header: string, key: string, entry: string)
    requires i < |lines|
    ensures var p, rest := lines[i], lines[i + 1..];
            lines[..i] + Update(lines[i..], header, key, entry) ==
              if p == header then lines[..i + 1] + [entry] + DropKey(rest, key)
              else lines[..i + 1] + Update(rest, header, key, entry)
  {
    var p, rest := lines[i], lines[i + 1..];
    assert lines[i..][0] == p && lines[i..][1..] == rest;
    assert Update(lines[i..], header, key, entry) ==
           if p == header then [header, entry] + DropKey(rest, key) else [p] + Update(rest, header, key, entry);
    hide DropKey, Update;
    assert lines[..i + 1] == lines[..i] + [p];
  }

  lemma PendingEnd(lines: seq<string>, found: bool, header: string, key: string, entry: string)
    ensures Pending(lines, |lines|, found, header, key, entry) == lines + if found then [] else [header, entry]
  {
  }

  /** The writer's pass over the list: the entry is linked in below the first line
      that is the header, the old line for the key is taken off, and a missing
      section is added at the end. */
  method UpdateLines(nodes: seq<string>, sectionStr: string, indent: string, entry: string) returns (lines: seq<string>)
    requires entry != "" && forall k | 0 <= k < |nodes| :: nodes[k] != ""
    ensures lines == Update(nodes, sectionStr, indent, entry)
  {
    hide Update, Pending;
    lines := nodes;
    var i, found := 0, false;
    PendingStart(nodes, sectionStr, indent, entry);
    while i < |lines|
      invariant i <= |lines|
      invariant forall k | i <= k < |lines| :: lines[k] != ""
      invariant Update(nodes, sectionStr, indent, entry) == Pending(lines, i, found, sectionStr, indent, entry)
      decreases |lines| - i
    {
      var p := lines[i];
      PendingStep(lines, i, found, sectionStr, indent, entry);
      if !found {
        if p == sectionStr {
          found := true;
          lines := lines[..i + 1] + [entry] + lines[i + 1..];
          i := i + 2;
        } else {
          i := i + 1;
        }
      } else if p[0] == '[' {
        break;
      } else if indent <= p && |p| > |indent| && p[|indent|] == '=' {
        lines := lines[..i] + lines[i + 1..];
        break;
      } else {
        i := i + 1;
      }
    }
    assert Update(nodes, sectionStr, indent, entry) == Pending(lines, |lines|, found, sectionStr, indent, entry);
    PendingEnd(lines, found, sectionStr, indent, entry);
    if !found {
      lines := lines + [sectionStr, entry];
    }
  }

  lemma PendingStart(lines: seq<string>, header: string, key: string, entry: string)
    ensures Pending(lines, 0, false, header, key, entry) == Update(lines, header, key, entry)
  {
  }

  lemma NewFile(header: string, entry: string)
    ensures Emit([header, entry]) == header + "\r\n" + entry + "\r\n"
  {
    var lines: seq<string>, tail: seq<string> := [header, entry], [entry];
    assert lines[1..] == tail && tail[1..] == [];
    assert Emit(tail) == entry + "\r\n";
    assert header + "\r\n" + (entry + "\r\n") == header + "\r\n" + entry + "\r\n";
  }

  method PutLines(lines: seq<string>) returns (text: string)
    ensures text == Emit(lines)
  {
    text := "";
    for i := 0 to |lines|
      invariant text + Emit(lines[i..]) == Emit(lines)
    {
      assert lines[i..][1..] == lines[i + 1..] && lines[i..][0] == lines[i];
      ghost var rest := Emit(lines[i + 1..]);
      assert text + (lines[i] + "\r\n" + rest) == text + lines[i] + "\r\n" + rest;
      text := text + lines[i];
      text := text + "\r\n";
    }
  }
}
