/** How the renamed text of a role script is read: as the statements with all values renamed, and as no statement
    at all where the name of the keyspace is part of what the scripts have in common. */
module RoleReading {
  import opened Text
  import opened Cassandra
  import opened RoleScripts
  import opened RoleRename

  /** A name as CQL stores it when it is given without quotes. */
  predicate IsLowerName(name: string) {
    IsIdentifier(name) && Fold(name) == name
  }

  lemma IdentifierIsNamed(name: string)
    requires IsIdentifier(name)
    ensures Named(name)
    ensures IsLowerName(name) ==> 'a' <= name[0] <= 'z'
  {
    assert Fold(name)[0] == FoldChar(name[0]);
  }

  // ---------- Replaced texts ----------

  lemma {:induction false} ReplacedFree(text: string, name: string, other: string, c: char)
    requires name != "" && Free(text, c) && Free(other, c)
    ensures Free(Replaced(text, name, other), c)
    decreases |text|
  {
    hide Replaced;
    if |name| <= |text| && text[..|name|] == name {
      ReplaceMatch(text, name, other);
      ReplacedFree(text[|name|..], name, other, c);
    } else if text == "" {
      ReplaceNothingAtAll(name, other);
    } else {
      ReplaceShort(text, name, other);
      ReplacedFree(text[1..], name, other, c);
    }
  }

  lemma {:induction false} ReplacedEnds(text: string, name: string, other: string)
    requires name != "" && other != "" && text != ""
    ensures var s := Replaced(text, name, other);
            s != "" && (s[|s| - 1] == text[|text| - 1] || s[|s| - 1] == other[|other| - 1])
    decreases |text|
  {
    hide Replaced;
    ReplaceNothingAtAll(name, other);
    if |name| <= |text| && text[..|name|] == name {
      ReplaceMatch(text, name, other);
      if text[|name|..] != "" {
        ReplacedEnds(text[|name|..], name, other);
      }
    } else {
      ReplaceShort(text, name, other);
      if text[1..] != "" {
        ReplacedEnds(text[1..], name, other);
      }
    }
  }

  lemma FirstSignKept(text: string, name: string, other: string)
    requires name != "" && text != "" && text[0] != name[0]
    ensures Replaced(text, name, other) != "" && Replaced(text, name, other)[0] == text[0]
  {
    hide Replaced;
    assert |name| <= |text| ==> text[..|name|][0] == text[0];
    ReplaceShort(text, name, other);
  }

  lemma Unchanged(text: string, name: string, other: string)
    requires name != "" && Free(text, name[0])
    ensures Replaced(text, name, other) == text && !Occurs(name, text)
  {
    NeedsFirstSign(name, text);
    ReplaceNothing(text, name, other);
  }

  predicate NoLower(text: string) {
    forall i :: 0 <= i < |text| ==> !('a' <= text[i] <= 'z')
  }

  lemma UpperParts()
    ensures NoLower("CREATE ROLE IF NOT EXISTS ") && NoLower(" WITH PASSWORD = ") && NoLower(" IF EXISTS")
    ensures NoLower("GRANT") && NoLower("KEYSPACE")
  {
  }

  // ---------- A renamed statement ----------

  /** What is replaced in a printed statement is replaced in its pieces. */
  lemma PrintReplaced(stmt: Statement, name: string, other: string)
    requires Scripted(stmt) && Named(name)
    ensures Replaced(Print(stmt), name, other) + ";\n" == Glue(ReplacedPieces(PiecesOf(stmt), name, other))
  {
    hide Print, Glue, PiecesOf, Free, Replaced;
    PrintIsGlue(stmt);
    PiecesEnd(stmt, name);
    ReplacedGlue(PiecesOf(stmt), name, other);
    assert Print(stmt) + ";\n" == Print(stmt) + [';'] + "\n";
    ReplaceAcross(Print(stmt), ';', "\n", name, other);
    NewlineKept(name, other);
    assert Replaced(Print(stmt), name, other) + [';'] + "\n" == Replaced(Print(stmt), name, other) + ";\n";
  }

  lemma NewlineKept(name: string, other: string)
    requires Named(name)
    ensures Replaced("\n", name, other) == "\n"
  {
    assert name[0] != '\n';
    Unchanged("\n", name, other);
  }

  lemma FiveReplaced(stmt: Statement, a: string, x: string, b: string, y: string, c: string, name: string,
                     other: string)
    requires Scripted(stmt) && Named(name) && PiecesOf(stmt) == Five(a, x, b, y, c)
    ensures var x', b', y', c' := Replaced(x, name, other), Replaced(b, name, other), Replaced(y, name, other),
                                  Replaced(c, name, other);
            Replaced(Print(stmt), name, other) ==
            (Replaced(a, name, other) + ['\'']) + (x' + ['\''] + ((b' + ['\'']) + (y' + ['\''] + c')))
  {
    hide Print, Glue, PiecesOf, Free, Replaced, Named;
    NamedIsNotEmpty(name);
    var a', x', b', y', c' := Replaced(a, name, other), Replaced(x, name, other), Replaced(b, name, other),
                              Replaced(y, name, other), Replaced(c, name, other);
    PrintReplaced(stmt, name, other);
    ReplaceNothingAtAll(name, other);
    assert ReplacedPieces(PiecesOf(stmt), name, other) == Five(a', x', b', y', c');
    FiveText(a', x', b', y', c');
    FiveStripped(a', x', b', y', c');
    SameStripped(Replaced(Print(stmt), name, other),
                 (a' + ['\'']) + (x' + ['\''] + ((b' + ['\'']) + (y' + ['\''] + c'))));
  }

  lemma NamedIsNotEmpty(name: string)
    requires Named(name)
    ensures name != ""
  {
  }

  lemma SameStripped(s: string, t: string)
    requires s + ";\n" == t + ";\n"
    ensures s == t
  {
    assert s == (s + ";\n")[..|s|] && t == (t + ";\n")[..|t|];
  }

  lemma FiveStripped(a: string, x: string, b: string, y: string, c: string)
    ensures a + (['\''] + (x + (['\''] + (b + (['\''] + (y + (['\''] + (c + ";\n")))))))) ==
            ((a + ['\'']) + (x + ['\''] + ((b + ['\'']) + (y + ['\''] + c)))) + ";\n"
  {
    var t := b + (['\''] + (y + (['\''] + (c + ";\n"))));
    assert t == ((b + ['\'']) + (y + ['\''] + c)) + ";\n";
    var u := (b + ['\'']) + (y + ['\''] + c);
    assert a + (['\''] + (x + (['\''] + (u + ";\n")))) == ((a + ['\'']) + (x + ['\''] + u)) + ";\n";
  }

  lemma SameWord(a: string, b: string, sign: char, x: string, y: string)
    requires Free(a, sign) && Free(b, sign)
    ensures a + [sign] + x == b + [sign] + y ==> a == b
  {
    UpToDelimiter(a, sign, x);
    UpToDelimiter(b, sign, y);
    assert (a + [sign] + x)[..|a|] == a && (b + [sign] + y)[..|b|] == b;
  }

  /** A text that begins with another word does not begin with this one and the sign after it. */
  lemma OtherWord(s: string, word: string, rest: string, begin: string, more: string, sign: char, stop: char)
    requires Free(begin, sign) && Free(word, sign) && word != begin && s == word + [sign] + rest
    ensures Field(s, begin + [sign] + more, stop).None?
  {
    hide Free;
    var all := begin + [sign] + more;
    var tail := if all <= s then s[|all|..] else "";
    SameWord(word, begin, sign, rest, more + tail);
    assert all <= s ==> s == all + tail == begin + [sign] + (more + tail);
  }

  /** What a printed statement means after the renaming. */
  ghost function ReadAs(stmt: Statement, name: string, other: string): Statement
    requires name != ""
  {
    if Avoids(name, CommonParts(stmt)) then RenamedStatement(stmt, name, other) else Malformed
  }

  lemma ValuesQuotable(text: string, name: string, other: string)
    requires IsIdentifier(name) && IsIdentifier(other)
    ensures Quotable(text) ==> Quotable(Replaced(text, name, other))
    ensures Word(text) ==> Word(Replaced(text, name, other))
  {
    IdentifierIsNamed(other);
    if Free(text, ';') {
      ReplacedFree(text, name, other, ';');
    }
    if FitsQuotes(text) {
      ReplacedFree(text, name, other, '\'');
    }
    if Free(text, ' ') {
      ReplacedFree(text, name, other, ' ');
    }
    if text != "" {
      ReplacedEnds(text, name, other);
    }
  }

  lemma CreateRoleRead(r: string, p: string, name: string, other: string)
    requires Quotable(r) && Quotable(p) && IsLowerName(name) && IsIdentifier(other) && name != other
    ensures var stmt := CreateRole(r, p, false);
            Read(Replaced(Print(stmt), name, other)) == ReadAs(stmt, name, other)
  {
    hide Field, Replaced, Occurs, Print, Fold, IsIdentifier;
    var stmt := CreateRole(r, p, false);
    var a, b, c := CreateWords[0], CreateWords[1], CreateWords[2];
    IdentifierIsNamed(name);
    var r', p', c' := Replaced(r, name, other), Replaced(p, name, other), Replaced(c, name, other);
    UpperParts();
    Unchanged(a, name, other);
    Unchanged(b, name, other);
    ReplacedSame(c, name, other);
    FiveReplaced(stmt, a, r, b, p, c, name, other);
    ValuesQuotable(r, name, other);
    ValuesQuotable(p, name, other);
    var s := Replaced(Print(stmt), name, other);
    var tail := (b + ['\'']) + (p' + ['\''] + c');
    FieldReads(s, a + ['\''], r', '\'', tail);
    FieldReads(tail, b + ['\''], p', '\'', c');
    assert a + ['\''] == "CREATE ROLE IF NOT EXISTS '" && b + ['\''] == " WITH PASSWORD = '";
    assert s[0] == a[0] == 'C';
    OtherBeginning(s, "UPDATE system_auth.roles SET salted_hash = '", '\'');
    OtherBeginning(s, "GRANT ", ' ');
    assert Avoids(name, CommonParts(stmt)) <==> !Occurs(name, c);
  }

  lemma SetHashRead(r: string, h: string, name: string, other: string)
    requires Quotable(r) && Quotable(h) && IsLowerName(name) && IsIdentifier(other) && name != other
    ensures Read(Replaced(Print(SetHash(r, h)), name, other)) == ReadAs(SetHash(r, h), name, other)
  {
    hide Field, Replaced, Occurs, Print, Fold, IsIdentifier;
    var stmt := SetHash(r, h);
    var a, b, c := HashWords[0], HashWords[1], HashWords[2];
    IdentifierIsNamed(name);
    var a', h', b', r' := Replaced(a, name, other), Replaced(h, name, other), Replaced(b, name, other),
                          Replaced(r, name, other);
    UpperParts();
    Unchanged(c, name, other);
    ReplacedSame(a, name, other);
    ReplacedSame(b, name, other);
    FiveReplaced(stmt, a, h, b, r, c, name, other);
    ValuesQuotable(r, name, other);
    ValuesQuotable(h, name, other);
    HashWordsQuotable(name, other);
    var s := Replaced(Print(stmt), name, other);
    var tail := (b' + ['\'']) + (r' + ['\''] + c);
    assert s == (a' + ['\'']) + (h' + ['\''] + tail);
    SetHashFields(s, a', h', b', r', a, b, c);
    FirstSignKept(a, name, other);
    assert a' != "" && a'[0] == a[0] == 'U';
    assert s[0] == 'U';
    OtherBeginning(s, "CREATE ROLE IF NOT EXISTS '", '\'');
    OtherBeginning(s, "GRANT ", ' ');
    assert Avoids(name, CommonParts(stmt)) <==> !Occurs(name, a) && !Occurs(name, b);
  }

  lemma HashWordsQuotable(name: string, other: string)
    requires name != "" && IsIdentifier(other)
    ensures FitsQuotes(Replaced(HashWords[0], name, other)) && FitsQuotes(Replaced(HashWords[1], name, other))
    ensures FitsQuotes(HashWords[0]) && FitsQuotes(HashWords[1])
  {
    IdentifierIsNamed(other);
    ReplacedFree(HashWords[0], name, other, '\'');
    ReplacedFree(HashWords[1], name, other, '\'');
  }

  lemma SetHashFields(s: string, a': string, h: string, b': string, r: string, a: string, b: string, c: string)
    requires a == HashWords[0] && b == HashWords[1] && c == HashWords[2]
    requires s == (a' + ['\'']) + (h + ['\''] + ((b' + ['\'']) + (r + ['\''] + c)))
    requires FitsQuotes(a) && FitsQuotes(a') && FitsQuotes(b) && FitsQuotes(b') && FitsQuotes(h) && FitsQuotes(r)
    ensures ReadSetHash(s) == if a' == a && b' == b then Some(SetHash(r, h)) else None
  {
    hide Field, Free;
    var tail := (b' + ['\'']) + (r + ['\''] + c);
    assert a + ['\''] == a + ['\''] + "" == "UPDATE system_auth.roles SET salted_hash = '";
    assert b + ['\''] == b + ['\''] + "" == " WHERE role = '";
    if a' != a {
      assert s == a' + ['\''] + (h + ['\''] + tail);
      OtherWord(s, a', h + ['\''] + tail, a, "", '\'', '\'');
    } else {
      FieldReads(s, a' + ['\''], h, '\'', tail);
      if b' != b {
        assert tail == b' + ['\''] + (r + ['\''] + c);
        OtherWord(tail, b', r + ['\''] + c, b, "", '\'', '\'');
      } else {
        FieldReads(tail, b' + ['\''], r, '\'', c);
      }
    }
  }

  /** The text of a grant with any words for on and to. */
  function GrantText(p: string, on: string, k: string, to: string, r: string): string {
    "GRANT " + (p + [' '] + (on + [' '] + ("KEYSPACE " + (k + [' '] + (to + [' '] + ("'" + (r + ['\''] + "")))))))
  }

  lemma GrantReplaced(p: string, r: string, name: string, other: string)
    requires IsLowerName(name)
    ensures Replaced(Print(GrantOn(p, name, r)), name, other) ==
            GrantText(Replaced(p, name, other), Replaced("on", name, other), other, Replaced("to", name, other),
                      Replaced(r, name, other))
  {
    hide Print, Glue, Free, Replaced, Fold, IsIdentifier, Occurs, GrantText;
    var stmt := GrantOn(p, name, r);
    IdentifierIsNamed(name);
    NamedIsNotEmpty(name);
    var p', r' := Replaced(p, name, other), Replaced(r, name, other);
    var on, to := Replaced("on", name, other), Replaced("to", name, other);
    UpperParts();
    UpperUnchanged("GRANT", name, other);
    UpperUnchanged("KEYSPACE", name, other);
    ReplaceName(name, other);
    ReplaceNothingAtAll(name, other);
    PrintReplaced(stmt, name, other);
    assert ReplacedPieces(PiecesOf(stmt), name, other) == Eight("GRANT", p', on, "KEYSPACE", other, to, r');
    EightText("GRANT", p', on, "KEYSPACE", other, to, r');
    GrantStripped(p', on, other, to, r');
    SameStripped(Replaced(Print(stmt), name, other), GrantText(p', on, other, to, r'));
  }

  lemma GrantStripped(p: string, on: string, k: string, to: string, r: string)
    ensures "GRANT" + ([' '] + (p + ([' '] + (on + ([' '] + ("KEYSPACE" + ([' '] +
              (k + ([' '] + (to + (" '" + (r + "';\n")))))))))))) == GrantText(p, on, k, to, r) + ";\n"
  {
    var role := "'" + (r + ['\''] + "");
    assert " '" + (r + "';\n") == [' '] + (role + ";\n");
    var u := k + [' '] + (to + [' '] + role);
    assert k + ([' '] + (to + ([' '] + (role + ";\n")))) == u + ";\n";
    assert "KEYSPACE" + ([' '] + (u + ";\n")) == ("KEYSPACE " + u) + ";\n";
    var v := "KEYSPACE " + u;
    assert "GRANT" + ([' '] + (p + ([' '] + (on + ([' '] + (v + ";\n")))))) ==
           ("GRANT " + (p + [' '] + (on + [' '] + v))) + ";\n";
  }

  lemma GrantFields(p: string, on: string, k: string, to: string, r: string)
    requires Free(p, ' ') && Free(on, ' ') && Free(k, ' ') && Free(to, ' ') && FitsQuotes(r)
    ensures ReadGrant(GrantText(p, on, k, to, r)) ==
            if on == "on" && to == "to" then Some(GrantOn(p, k, r)) else None
  {
    hide Field;
    var last := "'" + (r + ['\''] + "");
    var place := to + [' '] + last;
    var tail := on + [' '] + ("KEYSPACE " + (k + [' '] + place));
    FieldReads(GrantText(p, on, k, to, r), "GRANT ", p, ' ', tail);
    assert "on" + [' '] + "KEYSPACE " == "on KEYSPACE " && "to" + [' '] + "'" == "to '";
    if on != "on" {
      OtherWord(tail, on, "KEYSPACE " + (k + [' '] + place), "on", "KEYSPACE ", ' ', ' ');
    } else {
      assert tail == "on KEYSPACE " + (k + [' '] + place);
      FieldReads(tail, "on KEYSPACE ", k, ' ', place);
      if to != "to" {
        OtherWord(place, to, last, "to", "'", ' ', '\'');
      } else {
        assert place == "to '" + (r + ['\''] + "");
        FieldReads(place, "to '", r, '\'', "");
      }
    }
  }

  lemma GrantRead(p: string, r: string, name: string, other: string)
    requires Word(p) && Quotable(r) && IsLowerName(name) && IsIdentifier(other) && name != other
    ensures Read(Replaced(Print(GrantOn(p, name, r)), name, other)) == ReadAs(GrantOn(p, name, r), name, other)
  {
    hide Field, Replaced, Occurs, Print, Fold, IsIdentifier;
    var stmt := GrantOn(p, name, r);
    IdentifierIsNamed(name);
    IdentifierIsNamed(other);
    var on, to := Replaced("on", name, other), Replaced("to", name, other);
    ValuesQuotable(p, name, other);
    ValuesQuotable(r, name, other);
    ReplacedFree("on", name, other, ' ');
    ReplacedFree("to", name, other, ' ');
    ReplacedSame("on", name, other);
    ReplacedSame("to", name, other);
    GrantReplaced(p, r, name, other);
    GrantFields(Replaced(p, name, other), on, other, to, Replaced(r, name, other));
    var s := Replaced(Print(stmt), name, other);
    assert s[0] == 'G';
    OtherBeginning(s, "CREATE ROLE IF NOT EXISTS '", '\'');
    OtherBeginning(s, "UPDATE system_auth.roles SET salted_hash = '", '\'');
    ReplaceName(name, other);
    GrantWordsAvoided(name);
  }

  lemma GrantWordsAvoided(name: string)
    requires IsLowerName(name)
    ensures Avoids(name, GrantWords) <==> !Occurs(name, "on") && !Occurs(name, "to")
  {
    hide Occurs;
    IdentifierIsNamed(name);
    UpperParts();
    Unchanged("GRANT", name, "");
    Unchanged("KEYSPACE", name, "");
    assert GrantWords[1] == "on" && GrantWords[3] == "to";
  }

  lemma UpperUnchanged(text: string, name: string, other: string)
    requires NoLower(text) && name != "" && 'a' <= name[0] <= 'z'
    ensures Replaced(text, name, other) == text
  {
    Unchanged(text, name, other);
  }

  /** A statement of a script renamed for a clone means the statement with all values renamed, or nothing at all
      when a common part of its text holds the name. */
  lemma ReadRenamed(stmt: Statement, name: string, other: string)
    requires Printable(stmt) && IsLowerName(name) && IsIdentifier(other) && name != other
    requires stmt.GrantOn? ==> stmt.keyspace == name
    ensures Read(Replaced(Print(stmt), name, other)) == ReadAs(stmt, name, other)
  {
    hide Read, Replaced, Print, Fold, IsIdentifier, ReadAs;
    match stmt
    case CreateRole(r, p, _) => CreateRoleRead(r, p, name, other);
    case SetHash(r, h) => SetHashRead(r, h, name, other);
    case GrantOn(p, _, r) => GrantRead(p, r, name, other);
  }

  // ---------- A renamed file ----------

  /** The renamed text of a statement still survives splitting and stripping. */
  lemma RenamedIsClear(stmt: Statement, name: string, other: string)
    requires Scripted(stmt) && Unbroken(stmt) && IsLowerName(name) && IsIdentifier(other)
    ensures Clear(Replaced(Print(stmt), name, other))
  {
    hide Replaced, Print, Free;
    IdentifierIsNamed(name);
    IdentifierIsNamed(other);
    PrintIsClear(stmt);
    var text := Print(stmt);
    ReplacedFree(text, name, other, ';');
    ReplacedEnds(text, name, other);
    PrintBegins(stmt);
    FirstSignKept(text, name, other);
    assert !IsSpace(other[|other| - 1]);
  }

  lemma PrintBegins(stmt: Statement)
    requires Scripted(stmt)
    ensures Print(stmt) != "" && 'A' <= Print(stmt)[0] <= 'Z'
  {
    assert "CREATE ROLE IF NOT EXISTS '"[0] == 'C' && "GRANT "[0] == 'G';
    assert "UPDATE system_auth.roles SET salted_hash = '"[0] == 'U';
  }

  lemma {:induction false} LinesReplaced(stmts: seq<Statement>, name: string, other: string)
    requires Named(name)
    ensures Replaced(Lines(Printed(stmts)), name, other) ==
            Lines(seq(|stmts|, i requires 0 <= i < |stmts| => Replaced(Print(stmts[i]), name, other)))
  {
    hide Replaced, Print, Free;
    var parts := seq(|stmts|, i requires 0 <= i < |stmts| => Replaced(Print(stmts[i]), name, other));
    NamedIsNotEmpty(name);
    ReplaceNothingAtAll(name, other);
    if stmts != [] {
      var rest := stmts[1..];
      LinesReplaced(rest, name, other);
      assert Printed(stmts)[1..] == Printed(rest);
      assert parts[1..] == seq(|rest|, i requires 0 <= i < |rest| => Replaced(Print(rest[i]), name, other));
      assert Lines(Printed(stmts)) == Print(stmts[0]) + [';'] + ("" + ['\n'] + Lines(Printed(rest)));
      ReplaceAcross(Print(stmts[0]), ';', "" + ['\n'] + Lines(Printed(rest)), name, other);
      ReplaceAcross("", '\n', Lines(Printed(rest)), name, other);
    }
  }

  /** A file renamed for a clone is read statement by statement. */
  lemma FileRenamed(stmts: seq<Statement>, name: string, other: string)
    requires IsLowerName(name) && IsIdentifier(other) && name != other
    requires forall i :: 0 <= i < |stmts| ==>
               Printable(stmts[i]) && (stmts[i].GrantOn? ==> stmts[i].keyspace == name)
    ensures Understood(Statements(Split(Replaced(ScriptText(stmts), name, other), ';'))) ==
            seq(|stmts|, i requires 0 <= i < |stmts| => ReadAs(stmts[i], name, other))
  {
    hide Replaced, Print, Free, Statements, Split, ReadAs, Printable, Clear, Fold, IsIdentifier, Lines, ScriptText;
    hide Read;
    IdentifierIsNamed(name);
    NamedIsNotEmpty(name);
    TextIsLines(stmts);
    LinesReplaced(stmts, name, other);
    var parts := seq(|stmts|, i requires 0 <= i < |stmts| => Replaced(Print(stmts[i]), name, other));
    forall i | 0 <= i < |stmts|
      ensures Clear(parts[i]) && Read(parts[i]) == ReadAs(stmts[i], name, other)
    {
      PrintableIsUnbroken(stmts[i]);
      RenamedIsClear(stmts[i], name, other);
      ReadRenamed(stmts[i], name, other);
    }
    LinesRead("", parts);
    assert "" + Lines(parts) == Lines(parts);
  }
}
