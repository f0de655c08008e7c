/** When a clone gives the saved roles back, and what it gives instead. */
module CloneRoles {
  import opened Text
  import opened Cassandra
  import opened RoleScripts
  import opened RoleRename
  import opened RoleReading
  import opened RoleRestore

  // ---------- A renaming never permutes names ----------

  lemma MovesStrict(a: string, b: string, c: string, name: string, other: string)
    requires Moves(a, b, name, other) && Moves(b, c, name, other)
    ensures Moves(a, c, name, other) && a != b
  {
    LessItself(a);
    if |name| == |other| {
      if Less(name, other) {
        LessStrict(a, b, c);
      } else {
        LessStrict(c, b, a);
      }
    }
  }

  /** A text that one of the set becomes. */
  ghost predicate Comes(texts: set<string>, x: string, name: string, other: string)
    requires name != ""
  {
    exists z :: z in texts && Replaced(z, name, other) == x
  }

  ghost predicate SelfMade(texts: set<string>, name: string, other: string)
    requires name != ""
  {
    forall x :: x in texts ==> Comes(texts, x, name, other)
  }

  lemma Origin(texts: set<string>, y: string, name: string, other: string) returns (z: string)
    requires name != "" && name != other && y in texts && SelfMade(texts, name, other) && Occurs(name, y)
    ensures z in texts && Occurs(name, z) && Moves(z, y, name, other)
  {
    hide Occurs, Replaced, Moves;
    assert Comes(texts, y, name, other);
    z :| z in texts && Replaced(z, name, other) == y;
    if !Occurs(name, z) {
      ReplaceNothing(z, name, other);
    }
    ReplaceMoves(z, name, other);
  }

  /** Every text of the set comes from one of the set: below holds those before y, and there is no first. */
  lemma {:induction false} NoFirst(texts: set<string>, below: set<string>, y: string, name: string, other: string)
    requires name != "" && name != other && SelfMade(texts, name, other)
    requires forall x :: x in texts && Moves(x, y, name, other) ==> x in below
    requires y in texts && Occurs(name, y)
    ensures false
    decreases below
  {
    hide Occurs, Replaced, Moves, SelfMade;
    var z := Origin(texts, y, name, other);
    forall x | x in texts && Moves(x, z, name, other)
      ensures x in below - {z}
    {
      MovesStrict(x, z, y, name, other);
    }
    NoFirst(texts, below - {z}, z, name, other);
  }

  /** A set of texts that is among its own renamed texts holds the name nowhere. */
  lemma SelfRenamed(texts: set<string>, name: string, other: string)
    requires name != "" && name != other && SelfMade(texts, name, other)
    ensures forall x :: x in texts ==> !Occurs(name, x)
  {
    hide Occurs, Replaced, Moves, SelfMade;
    forall x | x in texts
      ensures !Occurs(name, x)
    {
      if Occurs(name, x) {
        NoFirst(texts, texts, x, name, other);
      }
    }
  }

  // ---------- When the roles come back ----------

  function RoleSet(saved: seq<Saved>): set<string> {
    set i | 0 <= i < |saved| :: saved[i].role
  }

  lemma {:induction false} RestoredRoles(s: State, saved: seq<Saved>, keyspace: string)
    ensures RestoredAll(s, saved, keyspace).roles.Keys == s.roles.Keys + RoleSet(saved)
  {
    if saved != [] {
      var init, last := saved[..|saved| - 1], saved[|saved| - 1];
      RestoredRoles(s, init, keyspace);
      assert saved == init + [last];
      assert RoleSet(saved) == RoleSet(init) + {last.role};
    }
  }

  /** None of the roles is there before the restore. */
  ghost predicate AllNew(s: State, saved: seq<Saved>) {
    forall i :: 0 <= i < |saved| ==> saved[i].role !in s.roles
  }

  lemma RolesUnrelated(s: State, saved: seq<Saved>, keyspace: string, newName: string)
    requires AllNew(s, saved) && keyspace != "" && keyspace != newName
    requires RestoredAll(s, RenamedAll(saved, keyspace, newName), newName) == RestoredAll(s, saved, newName)
    ensures forall i :: 0 <= i < |saved| ==> !Occurs(keyspace, saved[i].role)
  {
    hide Occurs, RestoredAll, RenamedAll, SelfMade;
    RestoredRoles(s, RenamedAll(saved, keyspace, newName), newName);
    RestoredRoles(s, saved, newName);
    RolesSelfMade(saved, keyspace, newName);
    SelfRenamed(RoleSet(saved), keyspace, newName);
    assert forall i :: 0 <= i < |saved| ==> saved[i].role in RoleSet(saved);
  }

  lemma RolesSelfMade(saved: seq<Saved>, keyspace: string, newName: string)
    requires keyspace != "" && RoleSet(saved) <= RoleSet(RenamedAll(saved, keyspace, newName))
    ensures SelfMade(RoleSet(saved), keyspace, newName)
  {
    hide Replaced;
    var renamed := RenamedAll(saved, keyspace, newName);
    forall x | x in RoleSet(saved)
      ensures Comes(RoleSet(saved), x, keyspace, newName)
    {
      var i :| 0 <= i < |renamed| && renamed[i].role == x;
      assert saved[i].role in RoleSet(saved);
    }
  }

  function PermissionSet(saved: Saved): set<string> {
    set p | p in saved.permissions
  }

  lemma OneRoleUnrelated(before: State, after: State, saved: seq<Saved>, keyspace: string, newName: string, i: nat)
    requires WellFormed(before) && AllNew(before, saved) && DistinctRoles(saved) && i < |saved|
    requires keyspace != "" && keyspace != newName
    requires forall j :: 0 <= j < |saved| ==> !Occurs(keyspace, saved[j].role)
    requires IsRestored(before, after, saved, newName)
    requires IsRestored(before, after, RenamedAll(saved, keyspace, newName), newName)
    ensures Unrelated(saved[i], keyspace)
  {
    hide Occurs, Replaced, DistinctRoles, GrantSet, WellFormed;
    var renamed := RenamedAll(saved, keyspace, newName);
    RolesKept(saved, keyspace, newName);
    assert RoleAfter(before, renamed[i]) == RoleAfter(before, saved[i]);
    ReplacedSame(saved[i].hash, keyspace, newName);
    var mine := PermissionSet(saved[i]);
    forall p | p in mine
      ensures Comes(mine, p, keyspace, newName)
    {
      PermissionComes(before, after, saved, keyspace, newName, i, p);
    }
    SelfRenamed(mine, keyspace, newName);
    assert forall m :: 0 <= m < |saved[i].permissions| ==> saved[i].permissions[m] in mine;
  }

  lemma RolesKept(saved: seq<Saved>, keyspace: string, newName: string)
    requires keyspace != "" && forall j :: 0 <= j < |saved| ==> !Occurs(keyspace, saved[j].role)
    ensures forall j :: 0 <= j < |saved| ==> RenamedAll(saved, keyspace, newName)[j].role == saved[j].role
  {
    hide Occurs, Replaced;
    forall j | 0 <= j < |saved|
      ensures RenamedAll(saved, keyspace, newName)[j].role == saved[j].role
    {
      ReplaceNothing(saved[j].role, keyspace, newName);
    }
  }

  /** A permission of a role that is new was granted by a renamed script, and by that of the same role. */
  lemma PermissionComes(before: State, after: State, saved: seq<Saved>, keyspace: string, newName: string, i: nat,
                        p: string)
    requires WellFormed(before) && AllNew(before, saved) && DistinctRoles(saved) && i < |saved|
    requires keyspace != "" && p in PermissionSet(saved[i])
    requires forall j :: 0 <= j < |saved| ==> RenamedAll(saved, keyspace, newName)[j].role == saved[j].role
    requires IsRestored(before, after, saved, newName)
    requires IsRestored(before, after, RenamedAll(saved, keyspace, newName), newName)
    ensures Comes(PermissionSet(saved[i]), p, keyspace, newName)
  {
    hide Replaced, DistinctRoles, RoleAfter, Comes, Fold;
    var renamed := RenamedAll(saved, keyspace, newName);
    var g := Grant(saved[i].role, Fold(newName), p);
    assert g in GrantSet(saved[i], newName) && g in after.grants && g !in before.grants;
    var j :| 0 <= j < |saved| && g in GrantSet(renamed[j], newName);
    SameRole(saved, i, j);
    RenamedPermission(saved[i], keyspace, newName, p);
  }

  lemma RenamedPermission(saved: Saved, keyspace: string, newName: string, p: string)
    requires keyspace != "" && p in RenamedSaved(saved, keyspace, newName).permissions
    ensures Comes(PermissionSet(saved), p, keyspace, newName)
  {
    var renamed := RenamedSaved(saved, keyspace, newName).permissions;
    var m :| 0 <= m < |renamed| && renamed[m] == p;
    assert saved.permissions[m] in PermissionSet(saved);
  }

  lemma SameRole(saved: seq<Saved>, i: nat, j: nat)
    requires DistinctRoles(saved) && i < |saved| && j < |saved| && saved[i].role == saved[j].role
    ensures i == j
  {
  }

  /** Where none of the roles was there, the renamed roles make the same cluster as the saved ones exactly when no
      value of any of them holds the keyspace's name: no renaming makes up for another. */
  lemma RenamedMakesTheSame(before: State, saved: seq<Saved>, keyspace: string, newName: string)
    requires WellFormed(before) && AllNew(before, saved) && DistinctRoles(saved)
    requires keyspace != "" && keyspace != newName
    ensures RestoredAll(before, RenamedAll(saved, keyspace, newName), newName) ==
            RestoredAll(before, saved, newName) <==>
            forall i :: 0 <= i < |saved| ==> Unrelated(saved[i], keyspace)
  {
    hide Unrelated, RestoredAll, RenamedSaved, IsRestored, AllNew, WellFormed, Occurs, Replaced;
    var renamed := RenamedAll(saved, keyspace, newName);
    if forall i :: 0 <= i < |saved| ==> Unrelated(saved[i], keyspace) {
      forall i | 0 <= i < |saved|
        ensures renamed[i] == saved[i]
      {
        SavedRenamedSame(saved[i], keyspace, newName);
      }
      assert renamed == saved;
    }
    var after := RestoredAll(before, saved, newName);
    if RestoredAll(before, renamed, newName) == after {
      RolesUnrelated(before, saved, keyspace, newName);
      RestoredAllIs(before, saved, newName);
      RenamedDistinct(saved, keyspace, newName);
      RestoredAllIs(before, renamed, newName);
      forall i | 0 <= i < |saved|
        ensures Unrelated(saved[i], keyspace)
      {
        OneRoleUnrelated(before, after, saved, keyspace, newName, i);
      }
    }
  }

  lemma RenamedDistinct(saved: seq<Saved>, keyspace: string, newName: string)
    requires DistinctRoles(saved) && keyspace != ""
    requires forall i :: 0 <= i < |saved| ==> !Occurs(keyspace, saved[i].role)
    ensures DistinctRoles(RenamedAll(saved, keyspace, newName))
  {
    hide Occurs, Replaced;
    RolesKept(saved, keyspace, newName);
  }

  /** When nothing outside fails and none of the roles was there, the files of a clone give all saved roles back,
      on the new keyspace, exactly when the keyspace's name is neither in a common part of the scripts nor in a
      value of a saved role. */
  lemma CloneGivesRolesBack(weather: Weather, texts: seq<string>, saved: seq<Saved>, keyspace: string,
                            newName: string, w: World)
    requires forall n :: weather(n).Calm?
    requires IsLowerName(keyspace) && IsIdentifier(newName) && keyspace != newName
    requires Fold(newName) in w.state.keyspaces && WellFormed(w.state)
    requires WrittenFrom(texts, saved, keyspace) && DistinctRoles(saved) && AllNew(w.state, saved)
    requires forall i :: 0 <= i < |saved| ==> saved[i].role != ""
    ensures var stmts := AllStatements(Renamed(texts, Some((keyspace, newName))));
            AllWork(weather, stmts, w) && Run(weather, stmts, w).state == RestoredAll(w.state, saved, newName) <==>
            forall i :: 0 <= i < |saved| ==> Renameable(keyspace, saved[i]) && Unrelated(saved[i], keyspace)
  {
    hide Run, AllWork, AllStatements, Renamed, RenamedAll, RestoredAll, WrittenFrom, Renameable, Unrelated, AllNew;
    hide WellFormed, DistinctRoles, IsRestored, IsIdentifier, Fold;
    IdentifierIsNamed(keyspace);
    IdentifierIsNamed(newName);
    CloneRunsThrough(weather, texts, saved, keyspace, newName, w);
    RenamedMakesTheSame(w.state, saved, keyspace, newName);
    if forall i :: 0 <= i < |saved| ==> Renameable(keyspace, saved[i]) {
      if AllWork(weather, AllStatements(Renamed(texts, Some((keyspace, newName)))), w) {
        ClonedFilesRestore(weather, texts, saved, keyspace, newName, w);
      }
    }
  }

  // ---------- What happens otherwise ----------

  /** A role of the keyspace named after it: the script of ks_app becomes, word by word, that of another role. */
  lemma RelatedRoleIsRenamed(hash: string, permission: string)
    requires !Occurs("ks", hash) && !Occurs("ks", permission)
    ensures Replaced(ScriptText(ScriptOf(Saved("ks_app", hash, [permission]), "ks")), "ks", "db") ==
            ScriptText(ScriptOf(Saved("db_app", hash, [permission]), "db"))
  {
    hide Occurs, Replaced, ScriptText, ScriptOf, Avoids;
    var saved := Saved("ks_app", hash, [permission]);
    KsAvoids();
    ScriptRenamed(saved, "ks", "db");
    ReplaceNothing(hash, "ks", "db");
    ReplaceNothing(permission, "ks", "db");
    assert "ks_app"[..2] == "ks" && "ks_app"[2..] == "_app";
    ReplaceMatch("ks_app", "ks", "db");
    Unchanged("_app", "ks", "db");
    assert "db" + "_app" == "db_app";
    assert RenamedSaved(saved, "ks", "db") == Saved("db_app", hash, [permission]);
  }

  lemma KsAvoids()
    ensures Named("ks") && Avoids("ks", CreateWords) && Avoids("ks", HashWords) && Avoids("ks", GrantWords)
  {
    forall i | 0 <= i < 3
      ensures !Occurs("ks", CreateWords[i]) && !Occurs("ks", HashWords[i])
    {
      NeedsFirstSign("ks", CreateWords[i]);
      NeedsFirstSign("ks", HashWords[i]);
    }
    forall i | 0 <= i < 4
      ensures !Occurs("ks", GrantWords[i])
    {
      NeedsFirstSign("ks", GrantWords[i]);
    }
  }

  lemma OccursBetween(a: string, name: string, b: string)
    ensures Occurs(name, a + name + b)
  {
    assert (a + name + b)[|a|..|a| + |name|] == name;
    assert OccursAt(name, a + name + b, |a|);
  }

  /** A keyspace whose name is part of every script. */
  lemma HashIsInEveryScript()
    ensures IsLowerName("hash") && Avoids("hash", CreateWords) && !Avoids("hash", HashWords)
  {
    hide Occurs;
    OccursBetween("UPDATE system_auth.roles SET salted_", "hash", " = ");
    assert "UPDATE system_auth.roles SET salted_" + "hash" + " = " == HashWords[0];
    HashInNoCreation();
  }

  lemma HashInNoCreation()
    ensures Avoids("hash", CreateWords)
  {
    forall i | 0 <= i < 3
      ensures !Occurs("hash", CreateWords[i])
    {
      NeedsFirstSign("hash", CreateWords[i]);
    }
  }

  /** Where the name is part of the statement that sets the hash, a clone makes the first role with its own name
      as the password, and stops there. */
  lemma StopsWithOwnName(weather: Weather, texts: seq<string>, saved: seq<Saved>, keyspace: string,
                         newName: string, w: World)
    requires forall n :: weather(n).Calm?
    requires IsLowerName(keyspace) && IsIdentifier(newName) && keyspace != newName
    requires WrittenFrom(texts, saved, keyspace) && saved != [] && saved[0].role != ""
    requires Avoids(keyspace, CreateWords) && !Avoids(keyspace, HashWords)
    requires Replaced(saved[0].role, keyspace, newName) !in w.state.roles
    ensures var stmts := AllStatements(Renamed(texts, Some((keyspace, newName))));
            var role := Replaced(saved[0].role, keyspace, newName);
            && !AllWork(weather, stmts, w)
            && Run(weather, stmts, w).state ==
               w.state.(roles := w.state.roles[role := Role(Password(role), false, true)])
  {
    hide AllStatements, Replaced, ScriptText, Avoids, Plain, Printable, Fold, IsIdentifier, Run, AllWork;
    hide Understood, Statements, Split;
    IdentifierIsNamed(keyspace);
    IdentifierIsNamed(newName);
    PlainRenamed(saved[0], keyspace, newName);
    var all, stmts := Renamed(texts, Some((keyspace, newName))), ScriptOf(saved[0], keyspace);
    ScriptPrintable(saved[0], keyspace);
    FileRenamed(stmts, keyspace, newName);
    var role := Replaced(saved[0].role, keyspace, newName);
    var first := Understood(Statements(Split(all[0], ';')));
    assert first[0] == ReadAs(stmts[0], keyspace, newName) == CreateRole(role, role, false);
    assert first[1] == ReadAs(stmts[1], keyspace, newName) == Malformed;
    FirstFile(all);
    FitsBoth(saved[0], keyspace, newName);
    var run := AllStatements(all);
    assert run[0] == first[0] && run[1] == first[1];
    TwoStatements(weather, run, role, w);
  }

  lemma FitsBoth(saved: Saved, keyspace: string, newName: string)
    requires keyspace != "" && Plain(RenamedSaved(saved, keyspace, newName))
    ensures FitsQuotes(Replaced(saved.role, keyspace, newName))
  {
  }

  lemma {:induction false} FirstFile(texts: seq<string>)
    requires texts != []
    ensures Understood(Statements(Split(texts[0], ';'))) <= AllStatements(texts)
  {
    hide Understood, Statements, Split;
    if |texts| > 1 {
      FirstFile(texts[..|texts| - 1]);
    } else {
      assert AllStatements(texts[..0]) == [];
    }
  }

  lemma TwoStatements(weather: Weather, stmts: seq<Statement>, role: string, w: World)
    requires forall n :: weather(n).Calm?
    requires |stmts| >= 2 && stmts[0] == CreateRole(role, role, false) && stmts[1] == Malformed
    requires role != "" && FitsQuotes(role) && role !in w.state.roles
    ensures !AllWork(weather, stmts, w)
    ensures Run(weather, stmts, w).state ==
            w.state.(roles := w.state.roles[role := Role(Password(role), false, true)])
  {
    var next := Next(weather, stmts[0], w);
    assert Run(weather, stmts, w) == Run(weather, stmts[1..], next);
    assert stmts[1..][0] == Malformed;
  }
}
