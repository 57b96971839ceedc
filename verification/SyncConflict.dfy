/** Conflict resolution (`mobile/src/sync/conflict.ts`). */
module SyncConflict {
  import opened SyncSchema

  datatype Resolution = UseLocal | UseServer | MergeFields(patch: Row) | Skip

  predicate AppendOnly(table: string) {
    table in {"shots", "shot_events", "recordings"}
  }

  predicate ServerAuthoritative(table: string) {
    table in {"consent_records"}
  }

  /** `local.updated_at <= server.updated_at`; a missing stamp compares false, as in the source language. */
  predicate ServerNotOlder(local: Row, server: Row) {
    var l, s := Get(local, "updated_at"), Get(server, "updated_at");
    l.Num? && s.Num? && l.n <= s.n
  }

  /** The server row with the locally dirty columns put back. */
  function Merge(local: Row, server: Row, dirty: set<string>): Row {
    map c | c in server.Keys + dirty :: if c in dirty then Get(local, c) else server[c]
  }

  function ResolveConflict(table: string, local: Row, server: Row, dirty: set<string>): Resolution {
    if table !in TABLES then Skip
    else if ServerAuthoritative(table) then UseServer
    else if AppendOnly(table) then
      var sid := Get(local, "server_id");
      if sid.Str? && sid.s != "" && sid == Get(server, "server_id") then UseServer else Skip
    else if dirty == {} then UseServer
    else if ServerNotOlder(local, server) then MergeFields(Merge(local, server, dirty))
    else UseLocal
  }

  // ---- The `_changed` column ----------------------------------------------------------------------------------

  predicate IsSpace(c: char) {
    c in " \t\n\r\U{000B}\U{000C}\U{00A0}\U{1680}\U{2028}\U{2029}\U{202F}\U{205F}\U{3000}\U{FEFF}"
    || '\U{2000}' <= c <= '\U{200A}'
  }

  /** Of the ASCII characters the blank, the tab and the line breaks are space, and no others. */
  lemma SpaceIs(c: char)
    requires c <= '~'
    ensures IsSpace(c) <==> c in [' ', '\t', '\n', '\r', '\U{000B}', '\U{000C}']
  {
  }

  function Split(s: string): seq<string> {
    if s == "" then [""]
    else
      var rest := Split(s[1..]);
      if s[0] == ',' then [""] + rest else [[s[0]] + rest[0]] + rest[1..]
  }

  function TrimLeft(s: string): string {
    if s != "" && IsSpace(s[0]) then TrimLeft(s[1..]) else s
  }

  function TrimRight(s: string): string {
    if s != "" && IsSpace(s[|s| - 1]) then TrimRight(s[..|s| - 1]) else s
  }

  function Trim(s: string): string {
    TrimRight(TrimLeft(s))
  }

  function ParseChangedCols(changed: Value): set<string> {
    if changed.Str? && changed.s != "" then
      set part | part in Split(changed.s) && Trim(part) != "" :: Trim(part)
    else {}
  }

  function Join(cols: seq<string>): string {
    if cols == [] then "" else if |cols| == 1 then cols[0] else cols[0] + "," + Join(cols[1..])
  }

  /** A column name: not empty, no comma, no blank at either end. */
  predicate CleanName(c: string) {
    c != "" && ',' !in c && !IsSpace(c[0]) && !IsSpace(c[|c| - 1])
  }

  lemma {:induction false} SplitNameThenComma(c: string, rest: string)
    requires ',' !in c
    ensures Split(c + "," + rest) == [c] + Split(rest)
  {
    var s := c + "," + rest;
    if c == "" {
      assert s[0] == ',' && s[1..] == rest;
    } else {
      assert s[0] == c[0] && s[1..] == c[1..] + "," + rest;
      SplitNameThenComma(c[1..], rest);
      assert [c[0]] + c[1..] == c;
    }
  }

  lemma {:induction false} SplitName(c: string)
    requires ',' !in c
    ensures Split(c) == [c]
  {
    if c != "" {
      SplitName(c[1..]);
      assert [c[0]] + c[1..] == c;
    }
  }

  lemma {:induction false} SplitJoin(cols: seq<string>)
    requires cols != [] && forall i :: 0 <= i < |cols| ==> ',' !in cols[i]
    ensures Split(Join(cols)) == cols
  {
    if |cols| == 1 {
      SplitName(cols[0]);
    } else {
      SplitNameThenComma(cols[0], Join(cols[1..]));
      SplitJoin(cols[1..]);
    }
  }

  lemma {:induction false} TrimLeftSkips(pad: string, s: string)
    requires (forall i :: 0 <= i < |pad| ==> IsSpace(pad[i])) && s != "" && !IsSpace(s[0])
    ensures TrimLeft(pad + s) == s
  {
    if pad == "" {
      assert pad + s == s;
    } else {
      TrimLeftSkips(pad[1..], s);
      assert (pad + s)[1..] == pad[1..] + s;
    }
  }

  lemma {:induction false} TrimRightSkips(s: string, pad: string)
    requires (forall i :: 0 <= i < |pad| ==> IsSpace(pad[i])) && s != "" && !IsSpace(s[|s| - 1])
    ensures TrimRight(s + pad) == s
  {
    if pad == "" {
      assert s + pad == s;
    } else {
      TrimRightSkips(s, pad[..|pad| - 1]);
      assert (s + pad)[..|s + pad| - 1] == s + pad[..|pad| - 1];
    }
  }

  /** Blanks around a name do not count, and a name of blanks does not count at all. */
  lemma TrimIs(left: string, name: string, right: string)
    requires forall i :: 0 <= i < |left| ==> IsSpace(left[i])
    requires forall i :: 0 <= i < |right| ==> IsSpace(right[i])
    requires name == "" || CleanName(name)
    ensures Trim(left + name + right) == name
  {
    if name == "" {
      assert left + name + right == left + right;
      AllBlank(left + right);
    } else {
      TrimLeftSkips(left, name + right);
      assert left + name + right == left + (name + right);
      TrimRightSkips(name, right);
    }
  }

  lemma {:induction false} AllBlank(s: string)
    requires forall i :: 0 <= i < |s| ==> IsSpace(s[i])
    ensures TrimLeft(s) == "" && Trim(s) == ""
  {
    if s != "" {
      AllBlank(s[1..]);
    }
  }

  ghost predicate Blank(pad: string) {
    forall i :: 0 <= i < |pad| ==> IsSpace(pad[i])
  }

  /** The part is the name, or nothing, with blanks around it. */
  ghost predicate Padded(part: string, name: string) {
    && (name == "" || CleanName(name)) && ',' !in part
    && exists left, right :: Blank(left) && Blank(right) && part == left + name + right
  }

  lemma PaddedTrims(part: string, name: string)
    requires Padded(part, name)
    ensures Trim(part) == name
  {
    var left, right :| Blank(left) && Blank(right) && part == left + name + right;
    TrimIs(left, name, right);
  }

  /** Any list of names, with blanks anywhere around them and empty parts between the commas, is read as its names. */
  lemma ChangedColsWithBlanks(parts: seq<string>, names: seq<string>)
    requires |parts| == |names| && forall i :: 0 <= i < |parts| ==> Padded(parts[i], names[i])
    ensures ParseChangedCols(Str(Join(parts))) == set c | c in names && c != ""
  {
    if parts != [] {
      SplitJoin(parts);
      forall i | 0 <= i < |parts| ensures Trim(parts[i]) == names[i] {
        PaddedTrims(parts[i], names[i]);
      }
      NamesOfParts(parts, names);
      if Join(parts) == "" {
        assert Split("") == [""];
        assert names == [""] by {
          assert parts == [""];
          assert Trim("") == "";
        }
      }
    }
  }

  lemma NamesOfParts(parts: seq<string>, names: seq<string>)
    requires |parts| == |names| && forall i :: 0 <= i < |parts| ==> Trim(parts[i]) == names[i]
    ensures (set part | part in parts && Trim(part) != "" :: Trim(part)) == set c | c in names && c != ""
  {
    forall c | c in names && c != "" ensures c in set part | part in parts && Trim(part) != "" :: Trim(part) {
      var i :| 0 <= i < |names| && names[i] == c;
      assert parts[i] in parts;
    }
  }

  /** What the store writes as a list of dirty columns is read back as exactly that set. */
  lemma ChangedColsRoundTrip(cols: seq<string>)
    requires forall i :: 0 <= i < |cols| ==> CleanName(cols[i])
    ensures ParseChangedCols(Str(Join(cols))) == set c | c in cols
  {
    if cols != [] {
      SplitJoin(cols);
      assert CleanName(cols[0]);
      assert Join(cols) != "" by {
        assert |Join(cols)| >= |cols[0]|;
      }
      assert forall c :: c in cols ==> Trim(c) == c;
    }
  }
}
