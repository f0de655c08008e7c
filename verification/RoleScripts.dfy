/** Roles in a backup: scripts that recreate the roles of a keyspace with their hashes and permissions,
    written as text on the Cassandra host, split into statements and run on restore. */
module RoleScripts {
  import opened Text
  import opened Cassandra

  const ExcludedKeyspaces := ["system", "system_distributed", "system_auth", "system_schema",
                              "system_virtual_schema", "system_views", "system_traces"]

  /** A role with its permissions on the keyspace, and with its stored hash. */
  datatype RoleRow = RoleRow(role: string, permissions: seq<string>)

  datatype Saved = Saved(role: string, hash: string, permissions: seq<string>)

  // ---------- The text of a script ----------

  /** The text of the three statements a script uses. */
  function Print(stmt: Statement): string {
    match stmt
    case CreateRole(r, p, _) => "CREATE ROLE IF NOT EXISTS '" + r + "' WITH PASSWORD = '" + p + "' AND LOGIN = true"
    case SetHash(r, h) => "UPDATE system_auth.roles SET salted_hash = '" + h + "' WHERE role = '" + r + "' IF EXISTS"
    case GrantOn(p, k, r) => "GRANT " + p + " on KEYSPACE " + k + " to '" + r + "'"
    case _ => ""
  }

  function GrantsOf(saved: Saved, keyspace: string): seq<Statement> {
    seq(|saved.permissions|, i requires 0 <= i < |saved.permissions| =>
      GrantOn(saved.permissions[i], keyspace, saved.role))
  }

  function ScriptOf(saved: Saved, keyspace: string): seq<Statement> {
    [CreateRole(saved.role, saved.role, false), SetHash(saved.role, saved.hash)] + GrantsOf(saved, keyspace)
  }

  function ScriptText(stmts: seq<Statement>): string {
    if stmts == [] then "" else ScriptText(stmts[..|stmts| - 1]) + Print(stmts[|stmts| - 1]) + ";\n"
  }

  // ---------- Writing ----------

  /** The rows of the role table: a role's hash, None where the column is null. */
  type Hashes = map<string, Option<string>>

  function HashOf(hashes: Hashes, role: string): Option<string> {
    if role in hashes then hashes[role] else None
  }

  /** Failed: a role without a hash. Crashed: an exception, for a role without a row. */
  datatype SaveResult = Done | Failed | Crashed

  predicate Skipped(role: string, username: string) {
    role == "cassandra" || role == username
  }

  /** What becomes of the first n roles: the files written, and whether a hash was missing. */
  function SavedBelow(rows: seq<RoleRow>, hashes: Hashes, username: string, n: nat): seq<Saved>
    requires n <= |rows|
  {
    if n == 0 then []
    else
      var row := rows[n - 1];
      SavedBelow(rows, hashes, username, n - 1) +
      (if Skipped(row.role, username) || HashOf(hashes, row.role).None? then []
       else [Saved(row.role, HashOf(hashes, row.role).value, row.permissions)])
  }

  function EarlierText(files: map<string, string>, role: string): string {
    if role in files then files[role] else ""
  }

  /** The script files of some saved roles, by role. A role met twice has both scripts in its file. */
  function Files(saved: seq<Saved>, keyspace: string): map<string, string> {
    if saved == [] then map[]
    else
      var before, last := Files(saved[..|saved| - 1], keyspace), saved[|saved| - 1];
      before[last.role := EarlierText(before, last.role) + ScriptText(ScriptOf(last, keyspace))]
  }

  predicate HashMissing(rows: seq<RoleRow>, hashes: Hashes, username: string, n: nat)
    requires n <= |rows|
  {
    exists i :: 0 <= i < n && !Skipped(rows[i].role, username) && HashOf(hashes, rows[i].role).None?
  }

  /** The files after the loop reached a row: all files of the rows before it. */
  ghost predicate StoppedAt(keyspace: string, rows: seq<RoleRow>, hashes: Hashes, username: string,
                            files: map<string, string>, result: SaveResult, i: nat) {
    && result == (if i < |rows| && rows[i].role in hashes then Failed else Crashed)
    && i < |rows| && !HashMissing(rows, hashes, username, i) && HashMissing(rows, hashes, username, i + 1)
    && files == Files(SavedBelow(rows, hashes, username, i), keyspace)
  }

  /** The loop over the roles; it stops at the first role without a hash. */
  method WriteFiles(keyspace: string, rows: seq<RoleRow>, hashes: Hashes, username: string)
    returns (result: SaveResult, files: map<string, string>)
    ensures result.Done? <==> !HashMissing(rows, hashes, username, |rows|)
    ensures result.Done? ==> files == Files(SavedBelow(rows, hashes, username, |rows|), keyspace)
    ensures !result.Done? ==> exists i :: StoppedAt(keyspace, rows, hashes, username, files, result, i)
  {
    files := map[];
    hide Files, ScriptText, ScriptOf;
    assert Files([], keyspace) == map[] by {
      NoFiles(keyspace);
    }
    for i := 0 to |rows|
      invariant files == Files(SavedBelow(rows, hashes, username, i), keyspace)
      invariant !HashMissing(rows, hashes, username, i)
    {
      var role := rows[i].role;
      if !Skipped(role, username) {
        if role !in hashes {
          assert StoppedAt(keyspace, rows, hashes, username, files, Crashed, i);
          return Crashed, files;
        }
        if hashes[role].None? {
          assert StoppedAt(keyspace, rows, hashes, username, files, Failed, i);
          return Failed, files;
        }
        var saved := Saved(role, hashes[role].value, rows[i].permissions);
        var output := WriteScript(saved, keyspace);
        FilesStep(SavedBelow(rows, hashes, username, i), saved, keyspace);
        files := files[role := EarlierText(files, role) + output];
      } else {
        assert SavedBelow(rows, hashes, username, i + 1) == SavedBelow(rows, hashes, username, i);
      }
    }
    result := Done;
  }

  lemma NoFiles(keyspace: string)
    ensures Files([], keyspace) == map[]
  {
  }

  method BackupRoles(keyspace: string, rows: seq<RoleRow>, hashes: Hashes, username: string)
    returns (result: SaveResult, files: map<string, string>)
    ensures keyspace in ExcludedKeyspaces || |rows| <= 1 ==> files == map[]
    ensures keyspace !in ExcludedKeyspaces && |rows| >= 2 ==>
              (result.Done? <==> !HashMissing(rows, hashes, username, |rows|)) &&
              (result.Done? ==> files == Files(SavedBelow(rows, hashes, username, |rows|), keyspace)) &&
              (!result.Done? ==> exists i :: StoppedAt(keyspace, rows, hashes, username, files, result, i))
    ensures keyspace in ExcludedKeyspaces || |rows| == 1 ==> result == Done
    ensures keyspace !in ExcludedKeyspaces && rows == [] ==> result == Failed
  {
    files := map[];
    if keyspace in ExcludedKeyspaces {
      return Done, files;
    }
    if |rows| == 0 {
      return Failed, files;
    } else if |rows| == 1 {
      return Done, files;
    }
    result, files := WriteFiles(keyspace, rows, hashes, username);
  }

  lemma FilesStep(saved: seq<Saved>, last: Saved, keyspace: string)
    ensures var before := Files(saved, keyspace);
            Files(saved + [last], keyspace) ==
            before[last.role := EarlierText(before, last.role) + ScriptText(ScriptOf(last, keyspace))]
  {
  }

  method WriteScript(saved: Saved, keyspace: string) returns (output: string)
    ensures output == ScriptText(ScriptOf(saved, keyspace))
  {
    hide Print, ScriptText;
    var all := ScriptOf(saved, keyspace);
    output := Print(CreateRole(saved.role, saved.role, false)) + ";\n";
    output := output + (Print(SetHash(saved.role, saved.hash)) + ";\n");
    TextStep([], all[0]);
    TextStep([all[0]], all[1]);
    assert [] + [all[0]] == [all[0]] && all[..2] == [all[0]] + [all[1]];
    for i := 0 to |saved.permissions|
      invariant output == ScriptText(all[..i + 2])
    {
      TextStep(all[..i + 2], all[i + 2]);
      assert all[..i + 2] + [all[i + 2]] == all[..i + 3];
      output := output + (Print(GrantOn(saved.permissions[i], keyspace, saved.role)) + ";\n");
    }
    assert all[..|saved.permissions| + 2] == all;
  }

  lemma TextStep(stmts: seq<Statement>, stmt: Statement)
    ensures ScriptText(stmts + [stmt]) == ScriptText(stmts) + (Print(stmt) + ";\n")
    ensures ScriptText([]) == ""
  {
    hide Print;
    assert (stmts + [stmt])[..|stmts|] == stmts;
  }

  // ---------- Splitting a file into statements ----------

  /** The pieces between semicolons that are not blank, stripped. */
  function Statements(pieces: seq<string>): seq<string> {
    if pieces == [] then []
    else
      (if Trim(pieces[0]) == "" then [] else [Trim(pieces[0])]) + Statements(pieces[1..])
  }

  method ReadFile(text: string) returns (stmts: seq<string>)
    ensures stmts == Statements(Split(text, ';'))
  {
    hide Trim, Split, Statements;
    var pieces := Split(text, ';');
    stmts := [];
    assert pieces[0..] == pieces;
    for i := 0 to |pieces|
      invariant stmts + Statements(pieces[i..]) == Statements(pieces)
    {
      StatementsStep(pieces[i..]);
      assert pieces[i..][1..] == pieces[i + 1..];
      var stmt := Trim(pieces[i]);
      if stmt != "" {
        stmts := stmts + [stmt];
      }
    }
    StatementsStep(pieces[|pieces|..]);
  }

  lemma StatementsStep(pieces: seq<string>)
    ensures pieces == [] ==> Statements(pieces) == []
    ensures pieces != [] ==>
              Statements(pieces) == (if Trim(pieces[0]) == "" then [] else [Trim(pieces[0])]) + Statements(pieces[1..])
  {
  }

  /** A statement text that survives splitting and stripping. */
  predicate Clear(s: string) {
    s != "" && Free(s, ';') && !IsSpace(s[0]) && !IsSpace(s[|s| - 1])
  }

  function Lines(parts: seq<string>): string {
    if parts == [] then "" else parts[0] + ";\n" + Lines(parts[1..])
  }

  lemma TrimKeeps(lead: string, s: string)
    requires Clear(s) && (lead == "" || lead == "\n")
    ensures Trim(lead + s) == s
  {
  }

  lemma {:induction false} LinesRead(lead: string, parts: seq<string>)
    requires lead == "" || lead == "\n"
    requires forall i :: 0 <= i < |parts| ==> Clear(parts[i])
    ensures Statements(Split(lead + Lines(parts), ';')) == parts
    decreases |parts|
  {
    hide Trim, Clear, Split;
    if parts == [] {
      assert lead + Lines(parts) == lead;
      BlankReads(lead);
    } else {
      var first := lead + parts[0];
      assert lead + Lines(parts) == first + [';'] + ("\n" + Lines(parts[1..]));
      TrimKeeps(lead, parts[0]);
      FirstPiece(lead, parts[0], "\n" + Lines(parts[1..]));
      LinesRead("\n", parts[1..]);
    }
  }

  lemma FirstPiece(lead: string, part: string, rest: string)
    requires Clear(part) && (lead == "" || lead == "\n")
    ensures Split(lead + part + [';'] + rest, ';') == [lead + part] + Split(rest, ';')
    ensures part != ""
  {
    SplitFirst(lead + part, ';', rest);
  }

  lemma BlankReads(lead: string)
    requires lead == "" || lead == "\n"
    ensures Statements(Split(lead, ';')) == []
  {
  }

  function Printed(stmts: seq<Statement>): seq<string> {
    seq(|stmts|, i requires 0 <= i < |stmts| => Print(stmts[i]))
  }

  lemma {:induction false} TextIsLines(stmts: seq<Statement>)
    ensures ScriptText(stmts) == Lines(Printed(stmts))
  {
    hide Print;
    if stmts != [] {
      var init := stmts[..|stmts| - 1];
      TextIsLines(init);
      LinesSnoc(Printed(init), Print(stmts[|stmts| - 1]));
      assert Printed(stmts) == Printed(init) + [Print(stmts[|stmts| - 1])];
    }
  }

  lemma {:induction false} LinesSnoc(parts: seq<string>, last: string)
    ensures Lines(parts + [last]) == Lines(parts) + last + ";\n"
  {
    if parts == [] {
      assert [last][1..] == [];
    } else {
      assert (parts + [last])[1..] == parts[1..] + [last];
      LinesSnoc(parts[1..], last);
    }
  }

  /** Values that do not disturb the text. */
  predicate Quotable(s: string) {
    Free(s, ';') && Free(s, '\'')
  }

  predicate Word(s: string) {
    s != "" && Free(s, ';') && Free(s, ' ')
  }

  predicate Printable(stmt: Statement) {
    match stmt
    case CreateRole(r, p, super) => Quotable(r) && Quotable(p) && !super
    case SetHash(r, h) => Quotable(r) && Quotable(h)
    case GrantOn(p, k, r) => Word(p) && Word(k) && Quotable(r)
    case _ => false
  }

  /** The statements a script is written with. */
  predicate Scripted(stmt: Statement) {
    (stmt.CreateRole? && !stmt.superuser) || stmt.SetHash? || stmt.GrantOn?
  }

  /** No value of the statement holds a semicolon. */
  predicate Unbroken(stmt: Statement) {
    match stmt
    case CreateRole(r, p, _) => Free(r, ';') && Free(p, ';')
    case SetHash(r, h) => Free(r, ';') && Free(h, ';')
    case GrantOn(p, k, r) => Free(p, ';') && Free(k, ';') && Free(r, ';')
    case _ => false
  }

  /** The fixed parts of a statement's text neither hold a semicolon nor begin or end with a blank. */
  lemma PrintIsClear(stmt: Statement)
    requires Scripted(stmt)
    ensures Clear(Print(stmt)) <==> Unbroken(stmt)
    ensures Free(Print(stmt), ';') <==> Unbroken(stmt)
  {
    hide Clear, Print;
    match stmt
    case CreateRole(r, p, _) => CreateRoleIsClear(r, p);
    case SetHash(r, h) => SetHashIsClear(r, h);
    case GrantOn(p, k, r) => GrantIsClear(p, k, r);
  }

  lemma CreateRoleIsClear(r: string, p: string)
    ensures var s := Print(CreateRole(r, p, false));
            (Clear(s) <==> Free(r, ';') && Free(p, ';')) && (Free(s, ';') <==> Free(r, ';') && Free(p, ';'))
  {
    var s := Print(CreateRole(r, p, false));
    assert s[0] == 'C' && s[|s| - 1] == 'e';
    hide Free;
    FreeAppend("CREATE ROLE IF NOT EXISTS '", r, ';');
    FreeAppend("CREATE ROLE IF NOT EXISTS '" + r, "' WITH PASSWORD = '", ';');
    FreeAppend("CREATE ROLE IF NOT EXISTS '" + r + "' WITH PASSWORD = '", p, ';');
    FreeAppend("CREATE ROLE IF NOT EXISTS '" + r + "' WITH PASSWORD = '" + p, "' AND LOGIN = true", ';');
    FixedParts();
  }

  lemma FixedParts()
    ensures Free("CREATE ROLE IF NOT EXISTS '", ';') && Free("' WITH PASSWORD = '", ';')
    ensures Free("' AND LOGIN = true", ';') && Free("UPDATE system_auth.roles SET salted_hash = '", ';')
    ensures Free("' WHERE role = '", ';') && Free("' IF EXISTS", ';') && Free("GRANT ", ';')
    ensures Free(" on KEYSPACE ", ';') && Free(" to '", ';') && Free("'", ';')
  {
  }

  lemma SetHashIsClear(r: string, h: string)
    ensures var s := Print(SetHash(r, h));
            (Clear(s) <==> Free(r, ';') && Free(h, ';')) && (Free(s, ';') <==> Free(r, ';') && Free(h, ';'))
  {
    var s := Print(SetHash(r, h));
    assert "UPDATE system_auth.roles SET salted_hash = '"[0] == 'U';
    assert s[0] == 'U' && s[|s| - 1] == 'S';
    hide Free;
    FreeAppend("UPDATE system_auth.roles SET salted_hash = '", h, ';');
    FreeAppend("UPDATE system_auth.roles SET salted_hash = '" + h, "' WHERE role = '", ';');
    FreeAppend("UPDATE system_auth.roles SET salted_hash = '" + h + "' WHERE role = '", r, ';');
    FreeAppend("UPDATE system_auth.roles SET salted_hash = '" + h + "' WHERE role = '" + r, "' IF EXISTS", ';');
    FixedParts();
  }

  lemma GrantIsClear(p: string, k: string, r: string)
    ensures var s := Print(GrantOn(p, k, r));
            && (Clear(s) <==> Free(p, ';') && Free(k, ';') && Free(r, ';'))
            && (Free(s, ';') <==> Free(p, ';') && Free(k, ';') && Free(r, ';'))
  {
    var s := Print(GrantOn(p, k, r));
    assert s[0] == 'G' && s[|s| - 1] == '\'';
    hide Free;
    FreeAppend("GRANT ", p, ';');
    FreeAppend("GRANT " + p, " on KEYSPACE ", ';');
    FreeAppend("GRANT " + p + " on KEYSPACE ", k, ';');
    FreeAppend("GRANT " + p + " on KEYSPACE " + k, " to '", ';');
    FreeAppend("GRANT " + p + " on KEYSPACE " + k + " to '", r, ';');
    FreeAppend("GRANT " + p + " on KEYSPACE " + k + " to '" + r, "'", ';');
    FixedParts();
  }

  lemma FreeAppend(a: string, b: string, c: char)
    ensures Free(a + b, c) <==> Free(a, c) && Free(b, c)
  {
    assert forall i :: 0 <= i < |a| ==> (a + b)[i] == a[i];
    assert forall i :: 0 <= i < |b| ==> (a + b)[|a| + i] == b[i];
  }

  // ---------- Reading a statement ----------

  /** A word after a fixed beginning, up to a stop sign, and the text after the sign. */
  function Field(s: string, begin: string, stop: char): Option<(string, string)> {
    if !(begin <= s) then None
    else
      var t := s[|begin|..];
      var n := UpTo(t, stop);
      if n == |t| then None else Some((t[..n], t[n + 1..]))
  }

  function ReadCreateRole(s: string): Option<Statement> {
    var role := Field(s, "CREATE ROLE IF NOT EXISTS '", '\'');
    if role.None? then None
    else
      var password := Field(role.value.1, " WITH PASSWORD = '", '\'');
      if password.None? || password.value.1 != " AND LOGIN = true" then None
      else Some(CreateRole(role.value.0, password.value.0, false))
  }

  function ReadSetHash(s: string): Option<Statement> {
    var hash := Field(s, "UPDATE system_auth.roles SET salted_hash = '", '\'');
    if hash.None? then None
    else
      var role := Field(hash.value.1, " WHERE role = '", '\'');
      if role.None? || role.value.1 != " IF EXISTS" then None
      else Some(SetHash(role.value.0, hash.value.0))
  }

  function ReadGrant(s: string): Option<Statement> {
    var permission := Field(s, "GRANT ", ' ');
    if permission.None? then None
    else
      var keyspace := Field(permission.value.1, "on KEYSPACE ", ' ');
      if keyspace.None? then None
      else
        var role := Field(keyspace.value.1, "to '", '\'');
        if role.None? || role.value.1 != "" then None
        else Some(GrantOn(permission.value.0, keyspace.value.0, role.value.0))
  }

  /** What a statement text means, Malformed when it is none of the three. */
  function Read(s: string): Statement {
    if ReadCreateRole(s).Some? then ReadCreateRole(s).value
    else if ReadSetHash(s).Some? then ReadSetHash(s).value
    else if ReadGrant(s).Some? then ReadGrant(s).value
    else Malformed
  }

  lemma FieldReads(s: string, begin: string, word: string, stop: char, rest: string)
    requires Free(word, stop) && s == begin + (word + [stop] + rest)
    ensures Field(s, begin, stop) == Some((word, rest))
  {
    var t := word + [stop] + rest;
    assert s[|begin|..] == t;
    UpToDelimiter(word, stop, rest);
    assert t[..|word|] == word && t[|word| + 1..] == rest;
  }

  lemma CreateRoleReads(r: string, p: string)
    requires Quotable(r) && Quotable(p)
    ensures ReadCreateRole(Print(CreateRole(r, p, false))) == Some(CreateRole(r, p, false))
  {
    hide Field;
    var tail := " WITH PASSWORD = '" + p + "' AND LOGIN = true";
    var s := Print(CreateRole(r, p, false));
    assert s == "CREATE ROLE IF NOT EXISTS '" + (r + ['\''] + tail);
    FieldReads(s, "CREATE ROLE IF NOT EXISTS '", r, '\'', tail);
    assert tail == " WITH PASSWORD = '" + (p + ['\''] + " AND LOGIN = true");
    FieldReads(tail, " WITH PASSWORD = '", p, '\'', " AND LOGIN = true");
  }

  lemma SetHashReads(r: string, h: string)
    requires Quotable(r) && Quotable(h)
    ensures ReadSetHash(Print(SetHash(r, h))) == Some(SetHash(r, h))
    ensures ReadCreateRole(Print(SetHash(r, h))).None?
  {
    hide Field;
    var tail := " WHERE role = '" + r + "' IF EXISTS";
    var s := Print(SetHash(r, h));
    assert s == "UPDATE system_auth.roles SET salted_hash = '" + (h + ['\''] + tail);
    FieldReads(s, "UPDATE system_auth.roles SET salted_hash = '", h, '\'', tail);
    assert tail == " WHERE role = '" + (r + ['\''] + " IF EXISTS");
    FieldReads(tail, " WHERE role = '", r, '\'', " IF EXISTS");
    assert "UPDATE system_auth.roles SET salted_hash = '"[0] == 'U' == s[0];
    OtherBeginning(s, "CREATE ROLE IF NOT EXISTS '", '\'');
  }

  lemma OtherBeginning(s: string, begin: string, stop: char)
    requires s != "" && begin != "" && s[0] != begin[0]
    ensures Field(s, begin, stop).None?
  {
  }

  lemma GrantReads(p: string, k: string, r: string)
    requires Word(p) && Word(k) && Quotable(r)
    ensures ReadGrant(Print(GrantOn(p, k, r))) == Some(GrantOn(p, k, r))
    ensures ReadCreateRole(Print(GrantOn(p, k, r))).None? && ReadSetHash(Print(GrantOn(p, k, r))).None?
  {
    hide Field;
    var s := Print(GrantOn(p, k, r));
    var last := "to '" + r + "'";
    var tail := "on KEYSPACE " + k + " " + last;
    assert s == "GRANT " + (p + [' '] + tail);
    FieldReads(s, "GRANT ", p, ' ', tail);
    assert tail == "on KEYSPACE " + (k + [' '] + last);
    FieldReads(tail, "on KEYSPACE ", k, ' ', last);
    assert last == "to '" + (r + ['\''] + "");
    FieldReads(last, "to '", r, '\'', "");
    OtherBeginning(s, "CREATE ROLE IF NOT EXISTS '", '\'');
    OtherBeginning(s, "UPDATE system_auth.roles SET salted_hash = '", '\'');
  }

  lemma ReadPrint(stmt: Statement)
    requires Printable(stmt)
    ensures Read(Print(stmt)) == stmt
  {
    hide Print, ReadCreateRole, ReadSetHash, ReadGrant;
    match stmt
    case CreateRole(r, p, _) => CreateRoleReads(r, p);
    case SetHash(r, h) => SetHashReads(r, h);
    case GrantOn(p, k, r) => GrantReads(p, k, r);
  }

  function Understood(texts: seq<string>): seq<Statement> {
    seq(|texts|, i requires 0 <= i < |texts| => Read(texts[i]))
  }

  lemma {:induction false} PiecesFree(s: string, c: char)
    ensures forall i :: 0 <= i < |Split(s, c)| ==> Free(Split(s, c)[i], c)
    decreases |s|
  {
    if UpTo(s, c) < |s| {
      PiecesFree(s[UpTo(s, c) + 1..], c);
    }
  }

  lemma {:induction false} StatementsFree(pieces: seq<string>)
    requires forall i :: 0 <= i < |pieces| ==> Free(pieces[i], ';')
    ensures forall i :: 0 <= i < |Statements(pieces)| ==> Free(Statements(pieces)[i], ';')
  {
    if pieces != [] {
      StatementsFree(pieces[1..]);
      StatementsStep(pieces);
      TrimFree(pieces[0]);
    }
  }

  lemma TrimFree(s: string)
    requires Free(s, ';')
    ensures Free(Trim(s), ';')
  {
    assert TrimRight(TrimLeft(s)) <= TrimLeft(s) && TrimLeft(s) == s[|s| - |TrimLeft(s)|..];
  }

  /** Splitting and stripping the written text gives back exactly the statements written if and only if no
      value holds a semicolon, whatever quotes and blanks it holds. */
  lemma ScriptTextRoundTrip(stmts: seq<Statement>)
    requires forall i :: 0 <= i < |stmts| ==> Scripted(stmts[i])
    ensures Statements(Split(ScriptText(stmts), ';')) == Printed(stmts) <==>
            forall i :: 0 <= i < |stmts| ==> Unbroken(stmts[i])
  {
    hide Print, Split, Clear, ScriptText, Scripted, Unbroken, Lines, Statements, Free;
    TextIsLines(stmts);
    assert "" + Lines(Printed(stmts)) == ScriptText(stmts);
    forall i | 0 <= i < |stmts|
      ensures Clear(Printed(stmts)[i]) <==> Unbroken(stmts[i])
      ensures Free(Printed(stmts)[i], ';') <==> Unbroken(stmts[i])
    {
      PrintIsClear(stmts[i]);
    }
    if forall i :: 0 <= i < |stmts| ==> Unbroken(stmts[i]) {
      LinesRead("", Printed(stmts));
    }
    PiecesFree(ScriptText(stmts), ';');
    StatementsFree(Split(ScriptText(stmts), ';'));
  }

  /** Where quotes and blanks do not disturb the statements either, the text is understood as the statements. */
  lemma ScriptRoundTrip(stmts: seq<Statement>)
    requires forall i :: 0 <= i < |stmts| ==> Printable(stmts[i])
    ensures Understood(Statements(Split(ScriptText(stmts), ';'))) == stmts
  {
    hide Print, Read, Split, ScriptText, Printable, Statements;
    forall i | 0 <= i < |stmts|
      ensures Scripted(stmts[i]) && Unbroken(stmts[i]) && Read(Printed(stmts)[i]) == stmts[i]
    {
      PrintableIsUnbroken(stmts[i]);
      ReadPrint(stmts[i]);
    }
    ScriptTextRoundTrip(stmts);
  }

  lemma PrintableIsUnbroken(stmt: Statement)
    requires Printable(stmt)
    ensures Scripted(stmt) && Unbroken(stmt)
  {
  }

  // ---------- Running the scripts ----------

  method RunFile(cluster: Cluster, text: string) returns (ok: bool)
    modifies cluster
    ensures var stmts := Understood(Statements(Split(text, ';')));
            && cluster.Now() == Run(cluster.weather, stmts, old(cluster.Now()))
            && (ok <==> AllWork(cluster.weather, stmts, old(cluster.Now())))
  {
    hide Run, AllWork, Next, Works, Read, Split, Statements;
    var texts := ReadFile(text);
    ghost var stmts := Understood(texts);
    ghost var start := cluster.Now();
    RunNothing(cluster.weather, start);
    for i := 0 to |texts|
      invariant AllWork(cluster.weather, stmts[..i], start)
      invariant cluster.Now() == Run(cluster.weather, stmts[..i], start)
    {
      RunStep(cluster.weather, stmts, i, start);
      ok := cluster.Execute(Read(texts[i]));
      if !ok {
        return;
      }
    }
    assert stmts[..|texts|] == stmts;
    ok := true;
  }

  /** A role after its script: its old self with the saved hash, or a new ordinary role. */
  function RoleAfter(s: State, saved: Saved): Role {
    if saved.role in s.roles then s.roles[saved.role].(secret := SaltedHash(saved.hash))
    else Role(SaltedHash(saved.hash), false, true)
  }

  function GrantSet(saved: Saved, keyspace: string): set<Grant> {
    set p | p in saved.permissions :: Grant(saved.role, Fold(keyspace), p)
  }

  function Restored(s: State, saved: Saved, keyspace: string): State {
    State(s.keyspaces, s.roles[saved.role := RoleAfter(s, saved)], s.grants + GrantSet(saved, keyspace))
  }

  lemma {:induction false} GrantsRun(weather: Weather, saved: Saved, keyspace: string, n: nat, w: World)
    requires n <= |saved.permissions| && AllWork(weather, GrantsOf(saved, keyspace)[..n], w)
    ensures var after := Run(weather, GrantsOf(saved, keyspace)[..n], w).state;
            after == w.state.(grants := w.state.grants +
              set i | 0 <= i < n :: Grant(saved.role, Fold(keyspace), saved.permissions[i]))
  {
    hide Run, AllWork;
    var stmts := GrantsOf(saved, keyspace);
    if n == 0 {
      RunNothing(weather, w);
      assert stmts[..0] == [];
    } else {
      var part := stmts[..n];
      RunAppend(weather, part[..n - 1], part[n - 1..], w);
      assert part[..n - 1] + part[n - 1..] == part && part[..n - 1] == stmts[..n - 1];
      GrantsRun(weather, saved, keyspace, n - 1, w);
      RunStep(weather, part, n - 1, w);
      assert part[..n] == part;
    }
  }

  /** A script that runs through gives its role the saved hash and adds the saved permissions. */
  lemma ScriptRestores(weather: Weather, saved: Saved, keyspace: string, w: World)
    requires AllWork(weather, ScriptOf(saved, keyspace), w)
    ensures Run(weather, ScriptOf(saved, keyspace), w).state == Restored(w.state, saved, keyspace)
  {
    hide Run, AllWork;
    var stmts, grants := ScriptOf(saved, keyspace), GrantsOf(saved, keyspace);
    var head := [CreateRole(saved.role, saved.role, false), SetHash(saved.role, saved.hash)];
    RunNothing(weather, w);
    RunAppend(weather, head, grants, w);
    HeadRuns(weather, saved, w);
    var middle := Run(weather, head, w);
    assert grants[..|saved.permissions|] == grants;
    GrantsRun(weather, saved, keyspace, |saved.permissions|, middle);
    assert (set i | 0 <= i < |saved.permissions| :: Grant(saved.role, Fold(keyspace), saved.permissions[i])) ==
           GrantSet(saved, keyspace);
  }

  lemma HeadRuns(weather: Weather, saved: Saved, w: World)
    requires AllWork(weather, [CreateRole(saved.role, saved.role, false), SetHash(saved.role, saved.hash)], w)
    ensures Run(weather, [CreateRole(saved.role, saved.role, false), SetHash(saved.role, saved.hash)], w).state ==
            w.state.(roles := w.state.roles[saved.role := RoleAfter(w.state, saved)])
  {
    var head := [CreateRole(saved.role, saved.role, false), SetHash(saved.role, saved.hash)];
    var next := Next(weather, head[0], w);
    assert head[1..] == [head[1]] && head[1..][1..] == [];
    assert Run(weather, head, w) == Run(weather, head[1..], next);
    assert AllWork(weather, head[1..], next);
    assert Run(weather, head[1..], next) == Next(weather, head[1], next);
  }

  // ---------- All roles of a keyspace ----------

  function RestoredAll(s: State, saved: seq<Saved>, keyspace: string): State {
    if saved == [] then s
    else Restored(RestoredAll(s, saved[..|saved| - 1], keyspace), saved[|saved| - 1], keyspace)
  }

  ghost predicate DistinctRoles(saved: seq<Saved>) {
    forall i, j :: 0 <= i < j < |saved| ==> saved[i].role != saved[j].role
  }

  /** The state after all scripts, said without an order. */
  ghost predicate IsRestored(before: State, after: State, saved: seq<Saved>, keyspace: string) {
    && after.keyspaces == before.keyspaces
    && (forall i :: 0 <= i < |saved| ==>
          saved[i].role in after.roles && after.roles[saved[i].role] == RoleAfter(before, saved[i]))
    && (forall r :: r in after.roles ==> r in before.roles || exists i :: 0 <= i < |saved| && saved[i].role == r)
    && (forall r :: r in before.roles && (forall i :: 0 <= i < |saved| ==> saved[i].role != r) ==>
          r in after.roles && after.roles[r] == before.roles[r])
    && (forall g :: g in after.grants <==>
          g in before.grants || exists i :: 0 <= i < |saved| && g in GrantSet(saved[i], keyspace))
  }

  lemma {:induction false} RestoredAllIs(s: State, saved: seq<Saved>, keyspace: string)
    requires DistinctRoles(saved)
    ensures IsRestored(s, RestoredAll(s, saved, keyspace), saved, keyspace)
  {
    hide GrantSet;
    if saved != [] {
      var init := saved[..|saved| - 1];
      RestoredAllIs(s, init, keyspace);
      OneMoreRestored(s, RestoredAll(s, init, keyspace), init, saved[|saved| - 1], keyspace);
      assert init + [saved[|saved| - 1]] == saved;
    }
  }

  lemma OneMoreRestored(before: State, after: State, saved: seq<Saved>, last: Saved, keyspace: string)
    requires DistinctRoles(saved + [last]) && IsRestored(before, after, saved, keyspace)
    ensures IsRestored(before, Restored(after, last, keyspace), saved + [last], keyspace)
  {
    hide GrantSet;
    var all := saved + [last];
    assert all[|saved|] == last && forall i :: 0 <= i < |saved| ==> all[i] == saved[i];
    assert RoleAfter(after, last) == RoleAfter(before, last);
  }

  /** IsRestored leaves no choice. */
  lemma RestoredUnique(before: State, a: State, b: State, saved: seq<Saved>, other: seq<Saved>, keyspace: string)
    requires IsRestored(before, a, saved, keyspace) && IsRestored(before, b, other, keyspace)
    requires forall v :: v in saved <==> v in other
    ensures a == b
  {
    hide GrantSet;
    assert forall i :: 0 <= i < |saved| ==> saved[i] in other;
    assert forall i :: 0 <= i < |other| ==> other[i] in saved;
    assert a.roles.Keys == b.roles.Keys;
    assert a.roles == b.roles;
    assert a.grants == b.grants;
  }

  /** The files may be run in any order. */
  lemma OrderDoesNotMatter(s: State, saved: seq<Saved>, other: seq<Saved>, keyspace: string)
    requires DistinctRoles(saved) && DistinctRoles(other) && forall v :: v in saved <==> v in other
    ensures RestoredAll(s, saved, keyspace) == RestoredAll(s, other, keyspace)
  {
    RestoredAllIs(s, saved, keyspace);
    RestoredAllIs(s, other, keyspace);
    RestoredUnique(s, RestoredAll(s, saved, keyspace), RestoredAll(s, other, keyspace), saved, other, keyspace);
  }

  /** Running all scripts again changes nothing. */
  lemma RestoringTwiceIsOnce(s: State, saved: seq<Saved>, keyspace: string)
    requires DistinctRoles(saved)
    ensures RestoredAll(RestoredAll(s, saved, keyspace), saved, keyspace) == RestoredAll(s, saved, keyspace)
  {
    hide GrantSet, RestoredAll;
    var once := RestoredAll(s, saved, keyspace);
    RestoredAllIs(s, saved, keyspace);
    RestoredAllIs(once, saved, keyspace);
    forall i | 0 <= i < |saved|
      ensures RoleAfter(once, saved[i]) == RoleAfter(s, saved[i])
    {
    }
    assert IsRestored(s, RestoredAll(once, saved, keyspace), saved, keyspace);
    RestoredUnique(s, once, RestoredAll(once, saved, keyspace), saved, saved, keyspace);
  }

  // ---------- From the written files to the restored roles ----------

  /** What the round trip needs of a saved role: nothing in it disturbs the text. */
  predicate Plain(saved: Saved) {
    Quotable(saved.role) && Quotable(saved.hash) &&
    forall i :: 0 <= i < |saved.permissions| ==> Word(saved.permissions[i])
  }

  lemma ScriptReadsBack(saved: Saved, keyspace: string)
    requires Plain(saved) && Word(keyspace)
    ensures Understood(Statements(Split(ScriptText(ScriptOf(saved, keyspace)), ';'))) == ScriptOf(saved, keyspace)
  {
    hide Understood, Statements, Split, ScriptText;
    ScriptRoundTrip(ScriptOf(saved, keyspace));
  }

  /** With one row for each role, a role's file is its script. */
  lemma {:induction false} FileOfRole(saved: seq<Saved>, keyspace: string, k: nat)
    requires DistinctRoles(saved) && k < |saved|
    ensures saved[k].role in Files(saved, keyspace)
    ensures Files(saved, keyspace)[saved[k].role] == ScriptText(ScriptOf(saved[k], keyspace))
    ensures forall r :: r in Files(saved, keyspace) ==> exists i :: 0 <= i < |saved| && saved[i].role == r
  {
    hide ScriptText, ScriptOf;
    var init, last := saved[..|saved| - 1], saved[|saved| - 1];
    if init != [] {
      FileOfRole(init, keyspace, if k < |init| then k else 0);
    }
    assert "" + ScriptText(ScriptOf(last, keyspace)) == ScriptText(ScriptOf(last, keyspace));
  }

  /** The scripts of one role, one after the other. */
  function ScriptsOf(saved: seq<Saved>, keyspace: string, role: string): string {
    if saved == [] then ""
    else
      var last := saved[|saved| - 1];
      ScriptsOf(saved[..|saved| - 1], keyspace, role) +
      (if last.role == role then ScriptText(ScriptOf(last, keyspace)) else "")
  }

  /** A file is written to at its end, so a role that is met more than once has all its scripts in its file. */
  lemma {:induction false} FileHasAllScripts(saved: seq<Saved>, keyspace: string, role: string)
    ensures (if role in Files(saved, keyspace) then Files(saved, keyspace)[role] else "") ==
            ScriptsOf(saved, keyspace, role)
  {
    hide ScriptText, ScriptOf, Files;
    if saved == [] {
      NoFiles(keyspace);
    } else {
      var init, last := saved[..|saved| - 1], saved[|saved| - 1];
      FileHasAllScripts(init, keyspace, role);
      assert saved == init + [last];
      FilesStep(init, last, keyspace);
    }
  }

  // ---------- Which roles are in a backup ----------

  lemma {:induction false} SavedComesFrom(rows: seq<RoleRow>, hashes: Hashes, username: string, n: nat)
    requires n <= |rows|
    ensures forall v :: v in SavedBelow(rows, hashes, username, n) ==>
              exists i :: 0 <= i < n && IsSaved(rows[i], hashes, username, v)
    ensures forall i :: 0 <= i < n && rows[i].role != "cassandra" && rows[i].role != username &&
                        rows[i].role in hashes && hashes[rows[i].role].Some? ==>
              Saved(rows[i].role, hashes[rows[i].role].value, rows[i].permissions) in
              SavedBelow(rows, hashes, username, n)
  {
    if n > 0 {
      SavedComesFrom(rows, hashes, username, n - 1);
      assert forall v :: IsSaved(rows[n - 1], hashes, username, v) ==> v.role == rows[n - 1].role;
    }
  }

  /** What is saved of a row: its role, unless it is the default user or the one the backup logs in with, under its
      stored hash. */
  ghost predicate IsSaved(row: RoleRow, hashes: Hashes, username: string, saved: Saved) {
    && row.role != "cassandra" && row.role != username && row.role in hashes && hashes[row.role] == Some(saved.hash)
    && saved.role == row.role && saved.permissions == row.permissions
  }

  lemma {:induction false} SavedDistinct(rows: seq<RoleRow>, hashes: Hashes, username: string, n: nat)
    requires n <= |rows| && forall i, j :: 0 <= i < j < |rows| ==> rows[i].role != rows[j].role
    ensures DistinctRoles(SavedBelow(rows, hashes, username, n))
  {
    if n > 0 {
      SavedDistinct(rows, hashes, username, n - 1);
      SavedComesFrom(rows, hashes, username, n - 1);
      var before := SavedBelow(rows, hashes, username, n - 1);
      forall i | 0 <= i < |before|
        ensures before[i].role != rows[n - 1].role
      {
        assert before[i] in before;
        var j :| 0 <= j < n - 1 && IsSaved(rows[j], hashes, username, before[i]);
      }
    }
  }

  /** The files of a finished backup: for roles met once each, there is a file of exactly those that have a hash and
      are neither the default user nor the one the backup logs in with, and it is the script of the role with this
      hash and its permissions. */
  lemma EveryRoleIsSaved(keyspace: string, rows: seq<RoleRow>, hashes: Hashes, username: string, role: string)
    requires forall i, j :: 0 <= i < j < |rows| ==> rows[i].role != rows[j].role
    ensures var files := Files(SavedBelow(rows, hashes, username, |rows|), keyspace);
            && (role in files <==>
                exists i :: 0 <= i < |rows| && rows[i].role == role && role != "cassandra" && role != username &&
                            role in hashes && hashes[role].Some?)
            && forall i :: 0 <= i < |rows| && rows[i].role == role && role in files && role in hashes &&
                           hashes[role].Some? ==>
                 files[role] == ScriptText(ScriptOf(Saved(role, hashes[role].value, rows[i].permissions), keyspace))
  {
    hide Files, ScriptText, ScriptOf, SavedBelow, DistinctRoles;
    var saved := SavedBelow(rows, hashes, username, |rows|);
    var files := Files(saved, keyspace);
    SavedComesFrom(rows, hashes, username, |rows|);
    SavedDistinct(rows, hashes, username, |rows|);
    FilesAre(saved, keyspace);
    if role in files {
      var k :| 0 <= k < |saved| && saved[k].role == role;
      assert saved[k] in saved;
      var i :| 0 <= i < |rows| && IsSaved(rows[i], hashes, username, saved[k]);
      assert files[role] == ScriptText(ScriptOf(saved[k], keyspace));
      assert saved[k] == Saved(role, hashes[role].value, rows[i].permissions);
      assert forall j :: 0 <= j < |rows| && rows[j].role == role ==> j == i;
    }
    if i :| 0 <= i < |rows| && rows[i].role == role && role != "cassandra" && role != username && role in hashes &&
            hashes[role].Some? {
      var v := Saved(role, hashes[role].value, rows[i].permissions);
      assert v in saved;
      var k :| 0 <= k < |saved| && saved[k] == v;
    }
  }

  lemma FilesAre(saved: seq<Saved>, keyspace: string)
    requires DistinctRoles(saved)
    ensures forall k :: 0 <= k < |saved| ==>
              saved[k].role in Files(saved, keyspace) &&
              Files(saved, keyspace)[saved[k].role] == ScriptText(ScriptOf(saved[k], keyspace))
    ensures forall r :: r in Files(saved, keyspace) ==> exists k :: 0 <= k < |saved| && saved[k].role == r
  {
    hide Files, ScriptText, ScriptOf;
    forall k | 0 <= k < |saved|
      ensures saved[k].role in Files(saved, keyspace)
      ensures Files(saved, keyspace)[saved[k].role] == ScriptText(ScriptOf(saved[k], keyspace))
    {
      FileOfRole(saved, keyspace, k);
    }
    if saved != [] {
      FileOfRole(saved, keyspace, 0);
    } else {
      NoFiles(keyspace);
    }
  }
}
