/** Running the role scripts of a backup on restore, in place and renamed for a clone. */
module RoleRestore {
  import opened Text
  import opened Cassandra
  import opened RoleScripts
  import opened RoleRename
  import opened RoleReading

  // ---------- Files and their statements ----------

  /** The statements of some files, one file after the other. */
  function AllStatements(texts: seq<string>): seq<Statement> {
    if texts == [] then []
    else AllStatements(texts[..|texts| - 1]) + Understood(Statements(Split(texts[|texts| - 1], ';')))
  }

  lemma {:induction false} AllStatementsAppend(a: seq<string>, b: seq<string>)
    ensures AllStatements(a + b) == AllStatements(a) + AllStatements(b)
  {
    hide Understood, Statements, Split;
    if b == [] {
      assert a + b == a;
    } else {
      assert (a + b)[..|a + b| - 1] == a + b[..|b| - 1];
      AllStatementsAppend(a, b[..|b| - 1]);
    }
  }

  // ---------- Renaming in a clone ----------

  /** The files as they are run: in a clone the name of the keyspace is replaced wherever it stands. */
  function Renamed(texts: seq<string>, renaming: Option<(string, string)>): seq<string>
    requires renaming.Some? ==> renaming.value.0 != ""
  {
    if renaming.None? then texts
    else seq(|texts|, i requires 0 <= i < |texts| => Replaced(texts[i], renaming.value.0, renaming.value.1))
  }

  /** Runs the script files one after the other, up to the first statement that fails. */
  method RestoreRoles(cluster: Cluster, texts: seq<string>, renaming: Option<(string, string)>) returns (ok: bool)
    requires renaming.Some? ==> renaming.value.0 != ""
    modifies cluster
    ensures cluster.Now() == Run(cluster.weather, AllStatements(Renamed(texts, renaming)), old(cluster.Now()))
    ensures ok <==> AllWork(cluster.weather, AllStatements(Renamed(texts, renaming)), old(cluster.Now()))
  {
    hide Run, AllWork, Understood, Statements, Split, Replaced;
    ghost var start, all := cluster.Now(), Renamed(texts, renaming);
    RunNothing(cluster.weather, start);
    for k := 0 to |texts|
      invariant AllWork(cluster.weather, AllStatements(all[..k]), start)
      invariant cluster.Now() == Run(cluster.weather, AllStatements(all[..k]), start)
    {
      var text := texts[k];
      if renaming.Some? {
        text := Replaced(text, renaming.value.0, renaming.value.1);
      }
      assert all[..k + 1][..k] == all[..k] && all[k] == text;
      RunAppend(cluster.weather, AllStatements(all[..k]), Understood(Statements(Split(text, ';'))), start);
      ok := RunFile(cluster, text);
      if !ok {
        assert all == all[..k + 1] + all[k + 1..];
        AllStatementsAppend(all[..k + 1], all[k + 1..]);
        RunAppend(cluster.weather, AllStatements(all[..k + 1]), AllStatements(all[k + 1..]), start);
        return;
      }
    }
    assert all[..|texts|] == all;
    ok := true;
  }

  // ---------- In place ----------

  /** Files written from some saved roles and run without an error restore those roles: whatever the order,
      each has its saved hash and permissions, and everything else is as it was. */
  lemma {:induction false} FilesRestore(weather: Weather, texts: seq<string>, saved: seq<Saved>, keyspace: string,
                                        w: World)
    requires |texts| == |saved| && Word(keyspace)
    requires forall i :: 0 <= i < |saved| ==> Plain(saved[i]) && texts[i] == ScriptText(ScriptOf(saved[i], keyspace))
    requires AllWork(weather, AllStatements(texts), w)
    ensures Run(weather, AllStatements(texts), w).state == RestoredAll(w.state, saved, keyspace)
    ensures DistinctRoles(saved) ==>
              IsRestored(w.state, Run(weather, AllStatements(texts), w).state, saved, keyspace)
  {
    hide Run, AllWork, ScriptText, ScriptOf, Understood, Statements, Split, Restored, IsRestored;
    if texts == [] {
      RunNothing(weather, w);
    } else {
      var init, last := texts[..|texts| - 1], saved[|saved| - 1];
      ScriptReadsBack(last, keyspace);
      RunAppend(weather, AllStatements(init), ScriptOf(last, keyspace), w);
      FilesRestore(weather, init, saved[..|saved| - 1], keyspace, w);
      ScriptRestores(weather, last, keyspace, Run(weather, AllStatements(init), w));
    }
    if DistinctRoles(saved) {
      RestoredAllIs(w.state, saved, keyspace);
    }
  }

  /** When nothing outside fails and the keyspace is there, the script of a role with a name runs through. */
  lemma ScriptRunsThrough(weather: Weather, saved: Saved, keyspace: string, w: World)
    requires forall n :: weather(n).Calm?
    requires IsIdentifier(keyspace) && Fold(keyspace) in w.state.keyspaces
    requires saved.role != "" && FitsQuotes(saved.role) && FitsQuotes(saved.hash)
    ensures AllWork(weather, ScriptOf(saved, keyspace), w)
  {
    hide Fold, IsIdentifier;
    var create, hash := CreateRole(saved.role, saved.role, false), SetHash(saved.role, saved.hash);
    var grants := GrantsOf(saved, keyspace);
    var created := Next(weather, create, w);
    GrantsRunThrough(weather, grants, keyspace, saved.role, Next(weather, hash, created));
    assert ScriptOf(saved, keyspace)[1..] == [hash] + grants && ([hash] + grants)[1..] == grants;
    assert AllWork(weather, [hash] + grants, created);
  }

  lemma {:induction false} GrantsRunThrough(weather: Weather, grants: seq<Statement>, keyspace: string, role: string,
                                            w: World)
    requires forall n :: weather(n).Calm?
    requires IsIdentifier(keyspace) && Fold(keyspace) in w.state.keyspaces && role in w.state.roles && FitsQuotes(role)
    requires forall i :: 0 <= i < |grants| ==>
               grants[i].GrantOn? && grants[i].keyspace == keyspace && grants[i].role == role
    ensures AllWork(weather, grants, w)
  {
    hide Fold, IsIdentifier;
    if grants != [] {
      GrantsRunThrough(weather, grants[1..], keyspace, role, Next(weather, grants[0], w));
    }
  }

  lemma {:induction false} RestoredKeepsKeyspaces(s: State, saved: seq<Saved>, keyspace: string)
    ensures RestoredAll(s, saved, keyspace).keyspaces == s.keyspaces
  {
    if saved != [] {
      RestoredKeepsKeyspaces(s, saved[..|saved| - 1], keyspace);
    }
  }

  /** When nothing outside fails and the keyspace is there, the files of roles with names run through. */
  lemma {:induction false} FilesRunThrough(weather: Weather, texts: seq<string>, saved: seq<Saved>, keyspace: string,
                                           w: World)
    requires forall n :: weather(n).Calm?
    requires IsIdentifier(keyspace) && Fold(keyspace) in w.state.keyspaces && |texts| == |saved|
    requires forall i :: 0 <= i < |saved| ==>
               Plain(saved[i]) && saved[i].role != "" && texts[i] == ScriptText(ScriptOf(saved[i], keyspace))
    ensures AllWork(weather, AllStatements(texts), w)
  {
    hide Run, AllWork, ScriptText, ScriptOf, Understood, Statements, Split, Fold, IsIdentifier;
    if texts == [] {
      RunNothing(weather, w);
    } else {
      var init, last := texts[..|texts| - 1], saved[|saved| - 1];
      IdentifierIsNamed(keyspace);
      FilesRunThrough(weather, init, saved[..|saved| - 1], keyspace, w);
      FilesRestore(weather, init, saved[..|saved| - 1], keyspace, w);
      RestoredKeepsKeyspaces(w.state, saved[..|saved| - 1], keyspace);
      ScriptReadsBack(last, keyspace);
      RunAppend(weather, AllStatements(init), ScriptOf(last, keyspace), w);
      ScriptRunsThrough(weather, last, keyspace, Run(weather, AllStatements(init), w));
    }
  }

  // ---------- Into a clone ----------

  /** Files written from some saved roles. */
  ghost predicate WrittenFrom(texts: seq<string>, saved: seq<Saved>, keyspace: string) {
    |texts| == |saved| &&
    forall i :: 0 <= i < |saved| ==> Plain(saved[i]) && texts[i] == ScriptText(ScriptOf(saved[i], keyspace))
  }

  function RenamedAll(saved: seq<Saved>, keyspace: string, newName: string): seq<Saved>
    requires keyspace != ""
  {
    seq(|saved|, i requires 0 <= i < |saved| => RenamedSaved(saved[i], keyspace, newName))
  }

  lemma PlainRenamed(saved: Saved, keyspace: string, newName: string)
    requires keyspace != "" && Plain(saved) && Word(newName) && FitsQuotes(newName)
    ensures Plain(RenamedSaved(saved, keyspace, newName))
    ensures saved.role != "" ==> RenamedSaved(saved, keyspace, newName).role != ""
  {
    hide Replaced, Free;
    ReplacedFree(saved.role, keyspace, newName, ';');
    ReplacedFree(saved.role, keyspace, newName, '\'');
    ReplacedFree(saved.hash, keyspace, newName, ';');
    ReplacedFree(saved.hash, keyspace, newName, '\'');
    if saved.role != "" {
      ReplacedEnds(saved.role, keyspace, newName);
    }
    forall i | 0 <= i < |saved.permissions|
      ensures Word(Replaced(saved.permissions[i], keyspace, newName))
    {
      ReplacedFree(saved.permissions[i], keyspace, newName, ';');
      ReplacedFree(saved.permissions[i], keyspace, newName, ' ');
      ReplacedEnds(saved.permissions[i], keyspace, newName);
    }
  }

  /** The renamed files are those of the renamed roles. */
  lemma FilesRenamed(texts: seq<string>, saved: seq<Saved>, keyspace: string, newName: string)
    requires WrittenFrom(texts, saved, keyspace) && Named(keyspace) && Word(newName) && FitsQuotes(newName)
    requires forall i :: 0 <= i < |saved| ==> Renameable(keyspace, saved[i])
    ensures WrittenFrom(Renamed(texts, Some((keyspace, newName))), RenamedAll(saved, keyspace, newName), newName)
  {
    hide Replaced, ScriptText, ScriptOf, Plain, Renameable, Word;
    forall i | 0 <= i < |saved|
      ensures Renamed(texts, Some((keyspace, newName)))[i] ==
              ScriptText(ScriptOf(RenamedSaved(saved[i], keyspace, newName), newName))
      ensures Plain(RenamedSaved(saved[i], keyspace, newName))
    {
      ScriptRenamed(saved[i], keyspace, newName);
      PlainRenamed(saved[i], keyspace, newName);
    }
  }

  /** Files run through in a clone restore the roles with the keyspace's name replaced in all their values. */
  lemma ClonedFilesRestore(weather: Weather, texts: seq<string>, saved: seq<Saved>, keyspace: string,
                           newName: string, w: World)
    requires WrittenFrom(texts, saved, keyspace) && Named(keyspace) && Word(newName) && FitsQuotes(newName)
    requires forall i :: 0 <= i < |saved| ==> Renameable(keyspace, saved[i])
    requires AllWork(weather, AllStatements(Renamed(texts, Some((keyspace, newName)))), w)
    ensures var after := Run(weather, AllStatements(Renamed(texts, Some((keyspace, newName)))), w).state;
            var renamed := RenamedAll(saved, keyspace, newName);
            && after == RestoredAll(w.state, renamed, newName)
            && (DistinctRoles(renamed) ==> IsRestored(w.state, after, renamed, newName))
  {
    hide Run, AllWork, AllStatements, Renamed, RenamedAll, ScriptText, ScriptOf, Plain, Renameable, IsRestored;
    FilesRenamed(texts, saved, keyspace, newName);
    FilesRestore(weather, Renamed(texts, Some((keyspace, newName))), RenamedAll(saved, keyspace, newName), newName, w);
  }

  // ---------- Whether a clone's files run through ----------

  lemma {:induction false} NothingMalformed(weather: Weather, stmts: seq<Statement>, w: World)
    requires AllWork(weather, stmts, w)
    ensures Malformed !in stmts
  {
    if stmts != [] {
      NothingMalformed(weather, stmts[1..], Next(weather, stmts[0], w));
    }
  }

  lemma {:induction false} OfOneFile(texts: seq<string>, i: nat)
    requires i < |texts|
    ensures forall stmt :: stmt in Understood(Statements(Split(texts[i], ';'))) ==> stmt in AllStatements(texts)
  {
    hide Understood, Statements, Split;
    if i < |texts| - 1 {
      OfOneFile(texts[..|texts| - 1], i);
    }
  }

  lemma ScriptPrintable(saved: Saved, keyspace: string)
    requires Plain(saved) && Word(keyspace)
    ensures var stmts := ScriptOf(saved, keyspace);
            forall i :: 0 <= i < |stmts| ==>
              Printable(stmts[i]) && (stmts[i].GrantOn? ==> stmts[i].keyspace == keyspace)
  {
    hide Quotable, Word;
  }

  /** A script with the keyspace's name in a common part has a statement that means nothing after the renaming. */
  lemma BrokenScript(saved: Saved, keyspace: string, newName: string)
    requires Plain(saved) && !Renameable(keyspace, saved)
    requires IsLowerName(keyspace) && IsIdentifier(newName) && keyspace != newName
    ensures Malformed in
            Understood(Statements(Split(Replaced(ScriptText(ScriptOf(saved, keyspace)), keyspace, newName), ';')))
  {
    hide Understood, Statements, Split, Replaced, ScriptText, Avoids, Plain, Printable, Fold, IsIdentifier;
    IdentifierIsNamed(keyspace);
    var stmts := ScriptOf(saved, keyspace);
    ScriptPrintable(saved, keyspace);
    FileRenamed(stmts, keyspace, newName);
    var i := if !Avoids(keyspace, CreateWords) then 0 else if !Avoids(keyspace, HashWords) then 1 else 2;
    assert stmts[i] == if i == 0 then CreateRole(saved.role, saved.role, false)
                       else if i == 1 then SetHash(saved.role, saved.hash)
                       else GrantOn(saved.permissions[0], keyspace, saved.role);
    var understood :=
      Understood(Statements(Split(Replaced(ScriptText(ScriptOf(saved, keyspace)), keyspace, newName), ';')));
    assert understood[i] == ReadAs(stmts[i], keyspace, newName) == Malformed;
  }

  /** When nothing outside fails, the files of a clone run through exactly when no common part of the scripts
      holds the keyspace's name. */
  lemma CloneRunsThrough(weather: Weather, texts: seq<string>, saved: seq<Saved>, keyspace: string,
                         newName: string, w: World)
    requires forall n :: weather(n).Calm?
    requires IsLowerName(keyspace) && IsIdentifier(newName) && keyspace != newName
    requires Fold(newName) in w.state.keyspaces
    requires WrittenFrom(texts, saved, keyspace) && forall i :: 0 <= i < |saved| ==> saved[i].role != ""
    ensures AllWork(weather, AllStatements(Renamed(texts, Some((keyspace, newName)))), w) <==>
            forall i :: 0 <= i < |saved| ==> Renameable(keyspace, saved[i])
  {
    hide AllWork, AllStatements, Replaced, ScriptText, ScriptOf, Plain, Renameable, IsIdentifier, Fold;
    hide Understood, Statements, Split;
    IdentifierIsNamed(keyspace);
    IdentifierIsNamed(newName);
    var renamed, clones := Renamed(texts, Some((keyspace, newName))), RenamedAll(saved, keyspace, newName);
    if forall i :: 0 <= i < |saved| ==> Renameable(keyspace, saved[i]) {
      FilesRenamed(texts, saved, keyspace, newName);
      forall i | 0 <= i < |saved|
        ensures clones[i].role != ""
      {
        PlainRenamed(saved[i], keyspace, newName);
      }
      FilesRunThrough(weather, renamed, clones, newName, w);
    } else {
      var i :| 0 <= i < |saved| && !Renameable(keyspace, saved[i]);
      BrokenScript(saved[i], keyspace, newName);
      OfOneFile(renamed, i);
      if AllWork(weather, AllStatements(renamed), w) {
        NothingMalformed(weather, AllStatements(renamed), w);
      }
    }
  }
}
