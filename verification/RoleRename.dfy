/** What a clone's renaming makes of a role script: the text piece by piece, when it is the script that was
    meant, and how it is read when it is not. */
module RoleRename {
  import opened Text
  import opened Cassandra
  import opened RoleScripts

  /** Python's re.sub for a pattern that is a plain name. */
  function Replaced(text: string, name: string, other: string): string
    requires name != ""
    decreases |text|
  {
    if |text| < |name| then text
    else if text[..|name|] == name then other + Replaced(text[|name|..], name, other)
    else [text[0]] + Replaced(text[1..], name, other)
  }

  /** No match reaches across a sign that the name does not have. */
  lemma {:induction false} ReplaceAcross(a: string, c: char, b: string, name: string, other: string)
    requires name != "" && Free(name, c)
    ensures Replaced(a + [c] + b, name, other) == Replaced(a, name, other) + [c] + Replaced(b, name, other)
    decreases |a|
  {
    hide Replaced;
    var text := a + [c] + b;
    if a == [] {
      assert text[1..] == b && text[0] == c;
      assert |name| <= |text| ==> text[..|name|][0] == c;
      ReplaceShort(text, name, other);
      ReplaceNothingAtAll(name, other);
    } else if |name| <= |a| && a[..|name|] == name {
      assert text[..|name|] == a[..|name|];
      assert text[|name|..] == a[|name|..] + [c] + b;
      ReplaceAcross(a[|name|..], c, b, name, other);
      ReplaceMatch(text, name, other);
      ReplaceMatch(a, name, other);
    } else {
      assert text[1..] == a[1..] + [c] + b && text[0] == a[0];
      assert |name| <= |a| ==> text[..|name|] == a[..|name|];
      assert |a| < |name| <= |text| ==> text[..|name|][|a|] == c;
      ReplaceAcross(a[1..], c, b, name, other);
      ReplaceShort(text, name, other);
      ReplaceShort(a, name, other);
    }
  }

  lemma ReplaceMatch(text: string, name: string, other: string)
    requires name != "" && |name| <= |text| && text[..|name|] == name
    ensures Replaced(text, name, other) == other + Replaced(text[|name|..], name, other)
  {
  }

  /** Where the text does not begin with the name, its first sign is kept. */
  lemma ReplaceShort(text: string, name: string, other: string)
    requires name != "" && text != "" && !(|name| <= |text| && text[..|name|] == name)
    ensures Replaced(text, name, other) == [text[0]] + Replaced(text[1..], name, other)
  {
    if |text| < |name| {
      assert Replaced(text[1..], name, other) == text[1..];
    }
  }

  lemma SliceOfRest(text: string, i: nat, n: nat)
    requires i + 1 + n <= |text|
    ensures text[1..][i..i + n] == text[i + 1..i + 1 + n]
  {
  }

  lemma {:induction false} ReplaceNothing(text: string, name: string, other: string)
    requires name != "" && !Occurs(name, text)
    ensures Replaced(text, name, other) == text
    decreases |text|
  {
    if |text| >= |name| {
      assert text[0..0 + |name|] == text[..|name|];
      assert !OccursAt(name, text, 0);
      if Occurs(name, text[1..]) {
        var i :| 0 <= i <= |text[1..]| && OccursAt(name, text[1..], i);
        SliceOfRest(text, i, |name|);
        assert OccursAt(name, text, i + 1);
      }
      ReplaceNothing(text[1..], name, other);
    }
  }

  lemma ReplaceName(name: string, other: string)
    requires name != ""
    ensures Replaced(name, name, other) == other
  {
    assert name[|name|..] == [];
    assert Replaced([], name, other) == [];
  }

  lemma ReplaceNothingAtAll(name: string, other: string)
    requires name != ""
    ensures Replaced("", name, other) == ""
  {
  }

  lemma NeedsFirstSign(name: string, text: string)
    requires name != "" && Free(text, name[0])
    ensures !Occurs(name, text)
  {
    forall i | 0 <= i <= |text|
      ensures !OccursAt(name, text, i)
    {
      if i + |name| <= |text| {
        assert text[i..i + |name|][0] == text[i];
      }
    }
  }

  // ---------- When a text is changed ----------

  /** The order of texts by their first difference. */
  predicate Less(a: string, b: string) {
    a != "" && b != "" && (a[0] < b[0] || (a[0] == b[0] && Less(a[1..], b[1..])))
  }

  lemma {:induction false} LessTotal(a: string, b: string)
    requires |a| == |b| && a != b
    ensures Less(a, b) || Less(b, a)
  {
    if a[0] == b[0] {
      assert a == [a[0]] + a[1..] && b == [b[0]] + b[1..];
      LessTotal(a[1..], b[1..]);
    }
  }

  lemma {:induction false} LessStrict(a: string, b: string, c: string)
    requires Less(a, b) && Less(b, c)
    ensures Less(a, c) && a != c
  {
    if a[0] == b[0] == c[0] {
      LessStrict(a[1..], b[1..], c[1..]);
    }
  }

  lemma {:induction false} LessItself(a: string)
    ensures !Less(a, a)
  {
    if a != "" {
      LessItself(a[1..]);
    }
  }

  lemma {:induction false} LessBegins(a: string, b: string, x: string, y: string)
    requires Less(a, b)
    ensures Less(a + x, b + y)
  {
    assert (a + x)[0] == a[0] && (b + y)[0] == b[0];
    if a[0] == b[0] {
      LessBegins(a[1..], b[1..], x, y);
      assert (a + x)[1..] == a[1..] + x && (b + y)[1..] == b[1..] + y;
    }
  }

  /** A text stands in this relation to what becomes of it: longer, shorter, or later in the order of texts,
      whatever the other name is against the first. */
  predicate Moves(a: string, b: string, name: string, other: string) {
    if |name| < |other| then |a| < |b|
    else if |other| < |name| then |b| < |a|
    else |a| == |b| && if Less(name, other) then Less(a, b) else Less(b, a)
  }

  lemma {:induction false} ReplaceMoves(text: string, name: string, other: string)
    requires name != "" && name != other
    ensures Occurs(name, text) ==> Moves(text, Replaced(text, name, other), name, other)
    decreases |text|
  {
    hide Occurs, Replaced;
    if Occurs(name, text) {
      OccursIsLong(name, text);
      if text[..|name|] == name {
        var rest := text[|name|..];
        ReplaceMatch(text, name, other);
        ReplaceMoves(rest, name, other);
        if !Occurs(name, rest) {
          ReplaceNothing(rest, name, other);
        }
        assert text == name + rest;
        NameMoves(name, other, rest, Replaced(rest, name, other));
      } else {
        OccursLater(name, text);
        ReplaceMoves(text[1..], name, other);
        ReplaceShort(text, name, other);
        OneMoves(text[0], text[1..], Replaced(text[1..], name, other), name, other);
        assert text == [text[0]] + text[1..];
      }
    }
  }

  lemma NameMoves(name: string, other: string, rest: string, after: string)
    requires name != other && (rest == after || Moves(rest, after, name, other))
    ensures Moves(name + rest, other + after, name, other)
  {
    if |name| == |other| {
      LessTotal(name, other);
      if Less(name, other) {
        LessBegins(name, other, rest, after);
      } else {
        LessBegins(other, name, after, rest);
      }
    }
  }

  lemma OneMoves(c: char, a: string, b: string, name: string, other: string)
    requires Moves(a, b, name, other)
    ensures Moves([c] + a, [c] + b, name, other)
  {
    assert ([c] + a)[1..] == a && ([c] + b)[1..] == b;
  }

  lemma OccursIsLong(name: string, text: string)
    requires Occurs(name, text)
    ensures |name| <= |text|
  {
  }

  lemma OccursLater(name: string, text: string)
    requires Occurs(name, text) && |name| <= |text| && text[..|name|] != name
    ensures Occurs(name, text[1..])
  {
    var i :| 0 <= i <= |text| && OccursAt(name, text, i);
    assert text[0..0 + |name|] == text[..|name|];
    assert i > 0;
    SliceOfRest(text, i - 1, |name|);
    assert OccursAt(name, text[1..], i - 1);
  }

  /** Replacing a name by another one leaves exactly the texts alone that do not hold it. */
  lemma ReplacedSame(text: string, name: string, other: string)
    requires name != "" && name != other
    ensures Replaced(text, name, other) == text <==> !Occurs(name, text)
  {
    hide Occurs, Replaced;
    if Occurs(name, text) {
      ReplaceMoves(text, name, other);
      LessItself(text);
    } else {
      ReplaceNothing(text, name, other);
    }
  }

  // ---------- A script in pieces ----------

  /** A part of a text up to a sign that ends it. */
  datatype Piece = Piece(text: string, end: char)

  function Glue(pieces: seq<Piece>): string {
    if pieces == [] then "" else pieces[0].text + [pieces[0].end] + Glue(pieces[1..])
  }

  function ReplacedPieces(pieces: seq<Piece>, name: string, other: string): seq<Piece>
    requires name != ""
  {
    seq(|pieces|, i requires 0 <= i < |pieces| => Piece(Replaced(pieces[i].text, name, other), pieces[i].end))
  }

  lemma {:induction false} GlueAppend(a: seq<Piece>, b: seq<Piece>)
    ensures Glue(a + b) == Glue(a) + Glue(b)
  {
    if a == [] {
      assert a + b == b;
    } else {
      assert (a + b)[1..] == a[1..] + b;
      GlueAppend(a[1..], b);
    }
  }

  lemma {:induction false} ReplacedGlue(pieces: seq<Piece>, name: string, other: string)
    requires name != "" && forall i :: 0 <= i < |pieces| ==> Free(name, pieces[i].end)
    ensures Replaced(Glue(pieces), name, other) == Glue(ReplacedPieces(pieces, name, other))
  {
    hide Replaced, Free;
    if pieces == [] {
      ReplaceNothingAtAll(name, other);
    } else {
      ReplacedGlue(pieces[1..], name, other);
      ReplaceAcross(pieces[0].text, pieces[0].end, Glue(pieces[1..]), name, other);
      assert ReplacedPieces(pieces, name, other)[1..] == ReplacedPieces(pieces[1..], name, other);
    }
  }

  /** Piece by piece the same ending, and a text that is the same or was moved. */
  ghost predicate Alike(before: seq<Piece>, after: seq<Piece>, name: string, other: string) {
    |before| == |after| &&
    forall i :: 0 <= i < |before| ==>
      && before[i].end == after[i].end
      && (before[i].text == after[i].text || Moves(before[i].text, after[i].text, name, other))
  }

  lemma MovesOneWay(a: string, b: string, name: string, other: string)
    requires a == b || Moves(a, b, name, other)
    ensures |name| <= |other| ==> |a| <= |b|
    ensures |other| <= |name| ==> |b| <= |a|
  {
  }

  lemma SameParts(a: string, b: string, end: char, x: string, y: string)
    requires a + [end] + x == b + [end] + y && |a| == |b|
    ensures a == b && x == y
  {
    assert a == (a + [end] + x)[..|a|] && b == (b + [end] + y)[..|b|];
    assert x == (a + [end] + x)[|a| + 1..] && y == (b + [end] + y)[|b| + 1..];
  }

  /** All pieces move the same way, so no two changes cancel out. */
  lemma {:induction false} AlikeGlue(before: seq<Piece>, after: seq<Piece>, name: string, other: string)
    requires Alike(before, after, name, other)
    ensures |name| <= |other| ==> |Glue(before)| <= |Glue(after)|
    ensures |other| <= |name| ==> |Glue(after)| <= |Glue(before)|
    ensures Glue(before) == Glue(after) ==> before == after
  {
    hide Moves;
    if before != [] {
      AlikeGlue(before[1..], after[1..], name, other);
      MovesOneWay(before[0].text, after[0].text, name, other);
      if Glue(before) == Glue(after) {
        SameParts(before[0].text, after[0].text, before[0].end, Glue(before[1..]), Glue(after[1..]));
        assert before == [before[0]] + before[1..] && after == [after[0]] + after[1..];
      }
    }
  }

  /** The pieces of a statement and its end of line. */
  function PiecesOf(stmt: Statement): seq<Piece> {
    match stmt
    case CreateRole(r, p, _) =>
      Five("CREATE ROLE IF NOT EXISTS ", r, " WITH PASSWORD = ", p, " AND LOGIN = true")
    case SetHash(r, h) =>
      Five("UPDATE system_auth.roles SET salted_hash = ", h, " WHERE role = ", r, " IF EXISTS")
    case GrantOn(p, k, r) => Eight("GRANT", p, "on", "KEYSPACE", k, "to", r)
    case _ => []
  }

  /** Two quoted values between three fixed parts. */
  function Five(a: string, x: string, b: string, y: string, c: string): seq<Piece> {
    [Piece(a, '\''), Piece(x, '\''), Piece(b, '\''), Piece(y, '\''), Piece(c, ';'), Piece("", '\n')]
  }

  /** Three values among the words of a grant, the last one quoted. */
  function Eight(a: string, x: string, b: string, c: string, y: string, d: string, z: string): seq<Piece> {
    [Piece(a, ' '), Piece(x, ' '), Piece(b, ' '), Piece(c, ' '), Piece(y, ' '), Piece(d, ' '),
     Piece("", '\''), Piece(z, '\''), Piece("", ';'), Piece("", '\n')]
  }

  function AllPieces(stmts: seq<Statement>): seq<Piece> {
    if stmts == [] then [] else PiecesOf(stmts[0]) + AllPieces(stmts[1..])
  }

  lemma GlueFirst(text: string, end: char, rest: seq<Piece>)
    ensures Glue([Piece(text, end)] + rest) == text + ([end] + Glue(rest))
    ensures Glue([]) == ""
  {
    assert ([Piece(text, end)] + rest)[1..] == rest;
  }

  lemma FiveText(a: string, x: string, b: string, y: string, c: string)
    ensures Glue(Five(a, x, b, y, c)) ==
            a + (['\''] + (x + (['\''] + (b + (['\''] + (y + (['\''] + (c + ";\n"))))))))
  {
    hide Glue;
    var last := [Piece(c, ';')] + ([Piece("", '\n')] + []);
    GlueFirst("", '\n', []);
    GlueFirst(c, ';', [Piece("", '\n')] + []);
    assert Glue(last) == c + ";\n";
    GlueFirst(y, '\'', last);
    GlueFirst(b, '\'', [Piece(y, '\'')] + last);
    GlueFirst(x, '\'', [Piece(b, '\'')] + ([Piece(y, '\'')] + last));
    GlueFirst(a, '\'', [Piece(x, '\'')] + ([Piece(b, '\'')] + ([Piece(y, '\'')] + last)));
    assert Five(a, x, b, y, c) ==
           [Piece(a, '\'')] + ([Piece(x, '\'')] + ([Piece(b, '\'')] + ([Piece(y, '\'')] + last)));
  }

  lemma EightText(a: string, x: string, b: string, c: string, y: string, d: string, z: string)
    ensures Glue(Eight(a, x, b, c, y, d, z)) ==
            a + ([' '] + (x + ([' '] + (b + ([' '] + (c + ([' '] + (y + ([' '] + (d + (" '" + (z + "';\n"))))))))))))
  {
    hide Glue;
    var last := [Piece("", ';')] + ([Piece("", '\n')] + []);
    GlueFirst("", '\n', []);
    GlueFirst("", ';', [Piece("", '\n')] + []);
    var role := [Piece("", '\'')] + ([Piece(z, '\'')] + last);
    GlueFirst(z, '\'', last);
    GlueFirst("", '\'', [Piece(z, '\'')] + last);
    assert Glue(role) == "'" + (z + "';\n");
    var tail := [Piece(c, ' ')] + ([Piece(y, ' ')] + ([Piece(d, ' ')] + role));
    GlueFirst(d, ' ', role);
    assert [' '] + Glue(role) == " '" + (z + "';\n");
    GlueFirst(y, ' ', [Piece(d, ' ')] + role);
    GlueFirst(c, ' ', [Piece(y, ' ')] + ([Piece(d, ' ')] + role));
    GlueFirst(b, ' ', tail);
    GlueFirst(x, ' ', [Piece(b, ' ')] + tail);
    GlueFirst(a, ' ', [Piece(x, ' ')] + ([Piece(b, ' ')] + tail));
    assert Eight(a, x, b, c, y, d, z) == [Piece(a, ' ')] + ([Piece(x, ' ')] + ([Piece(b, ' ')] + tail));
  }

  lemma PrintIsGlue(stmt: Statement)
    requires Scripted(stmt)
    ensures Glue(PiecesOf(stmt)) == Print(stmt) + ";\n"
  {
    hide Glue, Print;
    match stmt
    case CreateRole(r, p, _) => CreateRoleGlue(r, p);
    case SetHash(r, h) => SetHashGlue(r, h);
    case GrantOn(p, k, r) => GrantGlue(p, k, r);
  }

  lemma CreateRoleGlue(r: string, p: string)
    ensures Glue(PiecesOf(CreateRole(r, p, false))) == Print(CreateRole(r, p, false)) + ";\n"
  {
    hide Glue;
    FiveText("CREATE ROLE IF NOT EXISTS ", r, " WITH PASSWORD = ", p, " AND LOGIN = true");
    FiveRegrouped("CREATE ROLE IF NOT EXISTS ", r, " WITH PASSWORD = ", p, " AND LOGIN = true");
    assert "CREATE ROLE IF NOT EXISTS " + ['\''] == "CREATE ROLE IF NOT EXISTS '";
    assert ['\''] + " WITH PASSWORD = " + ['\''] == "' WITH PASSWORD = '";
    assert ['\''] + " AND LOGIN = true" == "' AND LOGIN = true";
  }

  lemma SetHashGlue(r: string, h: string)
    ensures Glue(PiecesOf(SetHash(r, h))) == Print(SetHash(r, h)) + ";\n"
  {
    hide Glue;
    FiveText("UPDATE system_auth.roles SET salted_hash = ", h, " WHERE role = ", r, " IF EXISTS");
    FiveRegrouped("UPDATE system_auth.roles SET salted_hash = ", h, " WHERE role = ", r, " IF EXISTS");
    assert "UPDATE system_auth.roles SET salted_hash = " + ['\''] == "UPDATE system_auth.roles SET salted_hash = '";
    assert ['\''] + " WHERE role = " + ['\''] == "' WHERE role = '";
    assert ['\''] + " IF EXISTS" == "' IF EXISTS";
  }

  lemma GrantGlue(p: string, k: string, r: string)
    ensures Glue(PiecesOf(GrantOn(p, k, r))) == Print(GrantOn(p, k, r)) + ";\n"
  {
    hide Glue;
    EightText("GRANT", p, "on", "KEYSPACE", k, "to", r);
    EightRegrouped("GRANT", p, "on", "KEYSPACE", k, "to", r);
    assert "GRANT" + [' '] == "GRANT ";
    assert [' '] + "on" + [' '] + "KEYSPACE" + [' '] == " on KEYSPACE ";
    assert [' '] + "to" + " '" == " to '";
  }

  lemma FiveRegrouped(a: string, x: string, b: string, y: string, c: string)
    ensures a + (['\''] + (x + (['\''] + (b + (['\''] + (y + (['\''] + (c + ";\n")))))))) ==
            (a + ['\'']) + x + (['\''] + b + ['\'']) + y + (['\''] + c) + ";\n"
  {
    var tail := y + (['\''] + (c + ";\n"));
    assert tail == y + (['\''] + c) + ";\n";
    var middle := ['\''] + b + ['\''];
    assert ['\''] + (b + (['\''] + tail)) == middle + tail;
    assert a + (['\''] + (x + (middle + tail))) == (a + ['\'']) + x + middle + tail;
    var head := (a + ['\'']) + x + middle;
    assert head + tail == head + y + (['\''] + c) + ";\n";
  }

  lemma EightRegrouped(a: string, x: string, b: string, c: string, y: string, d: string, z: string)
    ensures a + ([' '] + (x + ([' '] + (b + ([' '] + (c + ([' '] + (y + ([' '] + (d + (" '" + (z + "';\n")))))))))))) ==
            (a + [' ']) + x + ([' '] + b + [' '] + c + [' ']) + y + ([' '] + d + " '") + z + "'" + ";\n"
  {
    var last := z + "';\n";
    var to := [' '] + d + " '";
    assert [' '] + (d + (" '" + last)) == to + last;
    var on := [' '] + b + [' '] + c + [' '];
    assert [' '] + (b + ([' '] + (c + ([' '] + (y + (to + last)))))) == on + (y + (to + last));
    var head := (a + [' ']) + x;
    assert a + ([' '] + (x + (on + (y + (to + last))))) == head + (on + (y + (to + last)));
    assert head + (on + (y + (to + last))) == head + on + y + to + last;
    assert head + on + y + to + last == head + on + y + to + z + "'" + ";\n" by {
      assert "'" + ";\n" == "';\n";
      assert head + on + y + to + (z + "';\n") == head + on + y + to + z + "';\n";
    }
  }

  lemma {:induction false} ScriptIsGlue(stmts: seq<Statement>)
    requires forall i :: 0 <= i < |stmts| ==> Scripted(stmts[i])
    ensures ScriptText(stmts) == Glue(AllPieces(stmts))
  {
    hide Glue, Print, PiecesOf, ScriptText, Scripted;
    TextIsLines(stmts);
    if stmts != [] {
      ScriptIsGlue(stmts[1..]);
      TextIsLines(stmts[1..]);
      PrintIsGlue(stmts[0]);
      GlueAppend(PiecesOf(stmts[0]), AllPieces(stmts[1..]));
      assert Printed(stmts)[1..] == Printed(stmts[1..]);
    } else {
      NothingGlued();
    }
  }

  lemma NothingGlued()
    ensures Glue([]) == ""
  {
  }

  // ---------- The renamed script ----------

  /** No sign that ends a part of a script, which no name has that CQL accepts without quotes. */
  predicate Named(name: string) {
    name != "" && Free(name, ' ') && Free(name, '\'') && Free(name, ';') && Free(name, '\n')
  }

  const CreateWords := ["CREATE ROLE IF NOT EXISTS ", " WITH PASSWORD = ", " AND LOGIN = true"]

  const HashWords := ["UPDATE system_auth.roles SET salted_hash = ", " WHERE role = ", " IF EXISTS"]

  const GrantWords := ["GRANT", "on", "KEYSPACE", "to"]

  /** The parts of a statement's text that are the same in every script. */
  function CommonParts(stmt: Statement): seq<string> {
    if stmt.CreateRole? then CreateWords else if stmt.SetHash? then HashWords else GrantWords
  }

  ghost predicate Avoids(name: string, parts: seq<string>) {
    forall i :: 0 <= i < |parts| ==> !Occurs(name, parts[i])
  }

  function RenamedStatement(stmt: Statement, name: string, other: string): Statement
    requires name != ""
  {
    match stmt
    case CreateRole(r, p, super) => CreateRole(Replaced(r, name, other), Replaced(p, name, other), super)
    case SetHash(r, h) => SetHash(Replaced(r, name, other), Replaced(h, name, other))
    case GrantOn(p, k, r) => GrantOn(Replaced(p, name, other), Replaced(k, name, other), Replaced(r, name, other))
    case _ => stmt
  }

  function RenamedStatements(stmts: seq<Statement>, name: string, other: string): seq<Statement>
    requires name != ""
  {
    seq(|stmts|, i requires 0 <= i < |stmts| => RenamedStatement(stmts[i], name, other))
  }

  /** The role that a clone is given for a saved one. */
  function RenamedSaved(saved: Saved, name: string, other: string): Saved
    requires name != ""
  {
    Saved(Replaced(saved.role, name, other), Replaced(saved.hash, name, other),
          seq(|saved.permissions|, i requires 0 <= i < |saved.permissions| =>
            Replaced(saved.permissions[i], name, other)))
  }

  lemma PiecesRenamed(stmt: Statement, name: string, other: string)
    requires Scripted(stmt) && name != "" && Avoids(name, CommonParts(stmt))
    ensures ReplacedPieces(PiecesOf(stmt), name, other) == PiecesOf(RenamedStatement(stmt, name, other))
  {
    hide Occurs, Replaced;
    var parts := CommonParts(stmt);
    forall i | 0 <= i < |parts|
      ensures Replaced(parts[i], name, other) == parts[i]
    {
      ReplaceNothing(parts[i], name, other);
    }
    ReplaceNothingAtAll(name, other);
    assert Replaced(parts[0], name, other) == parts[0] && Replaced(parts[1], name, other) == parts[1];
    assert Replaced(parts[2], name, other) == parts[2];
    assert stmt.GrantOn? ==> Replaced(parts[3], name, other) == parts[3];
  }

  lemma PiecesEnd(stmt: Statement, name: string)
    requires Named(name)
    ensures forall i :: 0 <= i < |PiecesOf(stmt)| ==> Free(name, PiecesOf(stmt)[i].end)
  {
    hide Free;
  }

  lemma {:induction false} AllPiecesEnd(stmts: seq<Statement>, name: string)
    requires Named(name)
    ensures forall i :: 0 <= i < |AllPieces(stmts)| ==> Free(name, AllPieces(stmts)[i].end)
  {
    hide PiecesOf, Free, Named;
    if stmts != [] {
      PiecesEnd(stmts[0], name);
      AllPiecesEnd(stmts[1..], name);
    }
  }

  lemma ReplacedAppend(a: seq<Piece>, b: seq<Piece>, name: string, other: string)
    requires name != ""
    ensures ReplacedPieces(a + b, name, other) == ReplacedPieces(a, name, other) + ReplacedPieces(b, name, other)
  {
    hide Replaced;
  }

  lemma {:induction false} AllPiecesRenamed(stmts: seq<Statement>, name: string, other: string)
    requires name != ""
    requires forall i :: 0 <= i < |stmts| ==> Scripted(stmts[i]) && Avoids(name, CommonParts(stmts[i]))
    ensures ReplacedPieces(AllPieces(stmts), name, other) == AllPieces(RenamedStatements(stmts, name, other))
  {
    hide PiecesOf, Avoids, Replaced, RenamedStatement;
    if stmts != [] {
      PiecesRenamed(stmts[0], name, other);
      AllPiecesRenamed(stmts[1..], name, other);
      ReplacedAppend(PiecesOf(stmts[0]), AllPieces(stmts[1..]), name, other);
      assert RenamedStatements(stmts, name, other)[1..] == RenamedStatements(stmts[1..], name, other);
    }
  }

  /** Where no fixed part holds the name, the renamed text is that of the statements with all values renamed. */
  lemma TextRenamed(stmts: seq<Statement>, name: string, other: string)
    requires Named(name)
    requires forall i :: 0 <= i < |stmts| ==> Scripted(stmts[i]) && Avoids(name, CommonParts(stmts[i]))
    ensures Replaced(ScriptText(stmts), name, other) == ScriptText(RenamedStatements(stmts, name, other))
  {
    hide Avoids, Replaced, ScriptText, Glue, AllPieces;
    ScriptIsGlue(stmts);
    AllPiecesEnd(stmts, name);
    ReplacedGlue(AllPieces(stmts), name, other);
    AllPiecesRenamed(stmts, name, other);
    ScriptIsGlue(RenamedStatements(stmts, name, other));
  }

  /** The keyspace's name is no part of what the scripts have in common. */
  ghost predicate Renameable(keyspace: string, saved: Saved) {
    Avoids(keyspace, CreateWords) && Avoids(keyspace, HashWords) &&
    (saved.permissions != [] ==> Avoids(keyspace, GrantWords))
  }

  /** No value of the saved role holds the keyspace's name. */
  ghost predicate Unrelated(saved: Saved, keyspace: string) {
    && !Occurs(keyspace, saved.role) && !Occurs(keyspace, saved.hash)
    && forall i :: 0 <= i < |saved.permissions| ==> !Occurs(keyspace, saved.permissions[i])
  }

  /** The renamed script of a role is the script, for the clone, of the role with all its values renamed. */
  lemma ScriptRenamed(saved: Saved, keyspace: string, newName: string)
    requires Named(keyspace) && Renameable(keyspace, saved)
    ensures Replaced(ScriptText(ScriptOf(saved, keyspace)), keyspace, newName) ==
            ScriptText(ScriptOf(RenamedSaved(saved, keyspace, newName), newName))
  {
    hide Avoids, Replaced, ScriptText;
    var stmts := ScriptOf(saved, keyspace);
    assert forall i :: 2 <= i < |stmts| ==> stmts[i] == GrantOn(saved.permissions[i - 2], keyspace, saved.role);
    TextRenamed(stmts, keyspace, newName);
    ReplaceName(keyspace, newName);
    assert RenamedStatements(stmts, keyspace, newName) == ScriptOf(RenamedSaved(saved, keyspace, newName), newName);
  }

  /** A clone gives a role back as it was saved exactly when none of its values holds the keyspace's name. */
  lemma SavedRenamedSame(saved: Saved, keyspace: string, newName: string)
    requires keyspace != "" && keyspace != newName
    ensures RenamedSaved(saved, keyspace, newName) == saved <==> Unrelated(saved, keyspace)
  {
    hide Occurs, Replaced;
    ReplacedSame(saved.role, keyspace, newName);
    ReplacedSame(saved.hash, keyspace, newName);
    var renamed := RenamedSaved(saved, keyspace, newName).permissions;
    forall i | 0 <= i < |renamed|
      ensures renamed[i] == saved.permissions[i] <==> !Occurs(keyspace, saved.permissions[i])
    {
      ReplacedSame(saved.permissions[i], keyspace, newName);
    }
  }

  // ---------- When the renamed script is the one that was meant ----------

  /** The same statement on the clone. */
  function OnClone(stmt: Statement, newName: string): Statement {
    match stmt
    case GrantOn(p, _, r) => GrantOn(p, newName, r)
    case _ => stmt
  }

  function AllOnClone(stmts: seq<Statement>, newName: string): seq<Statement> {
    seq(|stmts|, i requires 0 <= i < |stmts| => OnClone(stmts[i], newName))
  }

  /** Only the keyspace of a grant is renamed. */
  ghost predicate Spared(stmt: Statement, keyspace: string) {
    Avoids(keyspace, CommonParts(stmt)) &&
    match stmt
    case CreateRole(r, p, _) => !Occurs(keyspace, r) && !Occurs(keyspace, p)
    case SetHash(r, h) => !Occurs(keyspace, r) && !Occurs(keyspace, h)
    case GrantOn(p, _, r) => !Occurs(keyspace, p) && !Occurs(keyspace, r)
    case _ => true
  }

  lemma TextMoves(text: string, name: string, other: string)
    requires name != "" && name != other
    ensures text == Replaced(text, name, other) || Moves(text, Replaced(text, name, other), name, other)
    ensures text == Replaced(text, name, other) <==> !Occurs(name, text)
  {
    hide Occurs, Replaced, Moves;
    ReplacedSame(text, name, other);
    ReplaceMoves(text, name, other);
  }

  lemma StatementAlike(stmt: Statement, keyspace: string, newName: string)
    requires Scripted(stmt) && keyspace != "" && keyspace != newName
    requires stmt.GrantOn? ==> stmt.keyspace == keyspace
    ensures var before, after := PiecesOf(OnClone(stmt, newName)), ReplacedPieces(PiecesOf(stmt), keyspace, newName);
            Alike(before, after, keyspace, newName) && (before == after <==> Spared(stmt, keyspace))
  {
    hide Occurs, Replaced, Moves;
    var pieces := PiecesOf(stmt);
    var before, after := PiecesOf(OnClone(stmt, newName)), ReplacedPieces(pieces, keyspace, newName);
    forall i | 0 <= i < |pieces|
      ensures pieces[i].text == after[i].text || Moves(pieces[i].text, after[i].text, keyspace, newName)
      ensures pieces[i].text == after[i].text <==> !Occurs(keyspace, pieces[i].text)
    {
      TextMoves(pieces[i].text, keyspace, newName);
    }
    ReplaceName(keyspace, newName);
    SparedPieces(stmt, keyspace);
    assert stmt.GrantOn? ==> before == pieces[4 := Piece(newName, ' ')];
    assert stmt.GrantOn? ==> after[4] == before[4];
  }

  /** All pieces but the keyspace of a grant. */
  lemma SparedPieces(stmt: Statement, keyspace: string)
    requires Scripted(stmt) && keyspace != ""
    ensures Spared(stmt, keyspace) <==>
            forall i :: 0 <= i < |PiecesOf(stmt)| && !(stmt.GrantOn? && i == 4) ==>
              !Occurs(keyspace, PiecesOf(stmt)[i].text)
  {
    hide Occurs;
    NeedsFirstSign(keyspace, "");
    var pieces, parts := PiecesOf(stmt), CommonParts(stmt);
    assert pieces[0].text == parts[0];
    if stmt.GrantOn? {
      assert pieces[2].text == parts[1] && pieces[3].text == parts[2] && pieces[5].text == parts[3];
      assert pieces[1].text == stmt.permission && pieces[7].text == stmt.role;
    } else {
      assert pieces[2].text == parts[1] && pieces[4].text == parts[2];
      assert stmt.CreateRole? ==> pieces[1].text == stmt.role && pieces[3].text == stmt.password;
      assert stmt.SetHash? ==> pieces[1].text == stmt.hash && pieces[3].text == stmt.role;
    }
  }

  lemma AlikeAppend(a: seq<Piece>, b: seq<Piece>, c: seq<Piece>, d: seq<Piece>, name: string, other: string)
    requires Alike(a, c, name, other) && Alike(b, d, name, other)
    ensures Alike(a + b, c + d, name, other) && (a + b == c + d <==> a == c && b == d)
  {
    hide Moves;
    if a + b == c + d {
      assert a == (a + b)[..|a|] && c == (c + d)[..|a|];
      assert b == (a + b)[|a|..] && d == (c + d)[|a|..];
    }
  }

  lemma {:induction false} AllAlike(stmts: seq<Statement>, keyspace: string, newName: string)
    requires keyspace != "" && keyspace != newName
    requires forall i :: 0 <= i < |stmts| ==>
               Scripted(stmts[i]) && (stmts[i].GrantOn? ==> stmts[i].keyspace == keyspace)
    ensures var before := AllPieces(AllOnClone(stmts, newName));
            var after := ReplacedPieces(AllPieces(stmts), keyspace, newName);
            && Alike(before, after, keyspace, newName)
            && (before == after <==> forall i :: 0 <= i < |stmts| ==> Spared(stmts[i], keyspace))
  {
    hide PiecesOf, Spared, Replaced, Alike, OnClone, Scripted;
    if stmts == [] {
      NothingAlike(keyspace, newName);
      assert AllOnClone(stmts, newName) == [] && ReplacedPieces([], keyspace, newName) == [];
    } else {
      StatementAlike(stmts[0], keyspace, newName);
      AllAlike(stmts[1..], keyspace, newName);
      ReplacedAppend(PiecesOf(stmts[0]), AllPieces(stmts[1..]), keyspace, newName);
      assert AllOnClone(stmts, newName)[1..] == AllOnClone(stmts[1..], newName);
      AlikeAppend(PiecesOf(OnClone(stmts[0], newName)), AllPieces(AllOnClone(stmts[1..], newName)),
                  ReplacedPieces(PiecesOf(stmts[0]), keyspace, newName),
                  ReplacedPieces(AllPieces(stmts[1..]), keyspace, newName), keyspace, newName);
    }
  }

  lemma NothingAlike(name: string, other: string)
    ensures Alike([], [], name, other)
  {
  }

  /** The renamed script of a role is its script for the clone exactly when neither a fixed part that it has nor
      one of its values holds the keyspace's name. */
  lemma ScriptRenamedExactly(saved: Saved, keyspace: string, newName: string)
    requires Named(keyspace) && keyspace != newName
    ensures Replaced(ScriptText(ScriptOf(saved, keyspace)), keyspace, newName) ==
            ScriptText(ScriptOf(saved, newName)) <==>
            Renameable(keyspace, saved) && Unrelated(saved, keyspace)
  {
    hide Avoids, Replaced, ScriptText, Occurs, AllPieces, Glue, Alike;
    var stmts := ScriptOf(saved, keyspace);
    assert forall i :: 2 <= i < |stmts| ==> stmts[i] == GrantOn(saved.permissions[i - 2], keyspace, saved.role);
    assert AllOnClone(stmts, newName) == ScriptOf(saved, newName);
    ScriptIsGlue(stmts);
    ScriptIsGlue(ScriptOf(saved, newName));
    AllPiecesEnd(stmts, keyspace);
    ReplacedGlue(AllPieces(stmts), keyspace, newName);
    AllAlike(stmts, keyspace, newName);
    AlikeGlue(AllPieces(ScriptOf(saved, newName)), ReplacedPieces(AllPieces(stmts), keyspace, newName),
              keyspace, newName);
    SparedScript(saved, keyspace);
  }

  lemma SparedScript(saved: Saved, keyspace: string)
    ensures var stmts := ScriptOf(saved, keyspace);
            (forall i :: 0 <= i < |stmts| ==> Spared(stmts[i], keyspace)) <==>
            Renameable(keyspace, saved) && Unrelated(saved, keyspace)
  {
    hide Avoids, Occurs;
    var stmts := ScriptOf(saved, keyspace);
    assert stmts[0] == CreateRole(saved.role, saved.role, false) && stmts[1] == SetHash(saved.role, saved.hash);
    assert forall i :: 0 <= i < |saved.permissions| ==>
      stmts[i + 2] == GrantOn(saved.permissions[i], keyspace, saved.role);
    if Renameable(keyspace, saved) && Unrelated(saved, keyspace) {
      forall i | 0 <= i < |stmts|
        ensures Spared(stmts[i], keyspace)
      {
        assert i >= 2 ==> stmts[i] == GrantOn(saved.permissions[i - 2], keyspace, saved.role);
      }
    }
    if forall i :: 0 <= i < |stmts| ==> Spared(stmts[i], keyspace) {
      assert Spared(stmts[0], keyspace) && Spared(stmts[1], keyspace);
      forall i | 0 <= i < |saved.permissions|
        ensures !Occurs(keyspace, saved.permissions[i])
      {
        assert Spared(stmts[i + 2], keyspace);
      }
      if saved.permissions != [] {
        assert Spared(stmts[2], keyspace) && stmts[2] == GrantOn(saved.permissions[0], keyspace, saved.role);
      }
    }
  }
}
