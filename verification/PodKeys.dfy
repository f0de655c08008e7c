/** What copying the public key does on the pods: a completed step leaves the key, and nothing else, in the file of
    authorized keys of every pod, whatever its earlier attempts left half-done. */
module PodKeys {
  import opened Text
  import opened SshKeys

  /** The part of a pod's files that the commands concern: the directory and the key file, with their modes. */
  datatype Files = Files(dir: bool, key: Option<string>, dirMode: string, keyMode: string)

  /** What is echoed into the key file, between single quotes; it holds none itself. */
  function Echoed(command: string): Option<string> {
    var begin, end := "echo '", "' > " + KeyFile;
    if begin <= command && |begin| + |end| <= |command| && EndsWith(command, end) &&
       Free(command[|begin|..|command| - |end|], '\'')
    then Some(command[|begin|..|command| - |end|]) else None
  }

  /** What the shell of a pod does. Without the directory nothing can be written into it. */
  function Did(command: string, files: Files): Files {
    if command == "mkdir -p " + KeyDir + "/" then files.(dir := true)
    else if command == "rm -rf " + KeyFile then files.(key := None)
    else if command == "chmod -R 700 " + KeyDir then files.(dirMode := "700", keyMode := "700")
    else if command == "chmod 600 " + KeyFile then files.(keyMode := "600")
    else if Echoed(command).Some? && files.dir then files.(key := Echoed(command))
    else files
  }

  /** The files of a pod after some commands. One that failed may have done its work or not. */
  function FilesOn(pod: string, log: seq<Remote>, outcome: nat -> bool, partly: nat -> bool, start: Files): Files {
    if log == [] then start
    else
      var n := |log| - 1;
      var before := FilesOn(pod, log[..n], outcome, partly, start);
      if log[n].pod == pod && (outcome(n) || partly(n)) then Did(log[n].command, before) else before
  }

  /** The key is there alone, readable for its owner only. */
  function Installed(publicKey: string): Files {
    Files(true, Some(publicKey), "700", "600")
  }

  lemma EchoReads(publicKey: string)
    requires Free(publicKey, '\'')
    ensures Echoed(Commands(publicKey)[2].text) == Some(publicKey)
  {
    var begin, end := "echo '", "' > " + KeyFile;
    var command := begin + publicKey + end;
    assert command == Commands(publicKey)[2].text;
    assert command[|command| - |end|..] == end;
    assert command[|begin|..|command| - |end|] == publicKey;
  }

  lemma CommandsDiffer(publicKey: string)
    ensures var c := Commands(publicKey);
            forall i, j :: 0 <= i < j < 5 ==> c[i].text != c[j].text
  {
    hide KeyDir, KeyFile;
    var c := Commands(publicKey);
    assert c[0].text[0] == 'm' && c[1].text[0] == 'r' && c[2].text[0] == 'e' && c[3].text[0] == 'c';
    assert c[4].text[0] == 'c' && c[3].text[6] == '-' && c[4].text[6] == '6';
  }

  /** The five commands, from any files. */
  lemma CommandsInstall(publicKey: string, files: Files)
    requires Free(publicKey, '\'')
    ensures var c := Commands(publicKey);
            |c| == 5 &&
            Did(c[4].text, Did(c[3].text, Did(c[2].text, Did(c[1].text, Did(c[0].text, files))))) ==
            Installed(publicKey)
  {
    hide Echoed;
    EchoReads(publicKey);
    CommandsDiffer(publicKey);
  }

  /** Commands that are sent to other pods leave a pod's files alone. */
  lemma {:induction false} OtherPods(pod: string, log: seq<Remote>, n: nat, outcome: nat -> bool,
                                     partly: nat -> bool, start: Files)
    requires n <= |log| && forall t :: n <= t < |log| ==> log[t].pod != pod
    ensures FilesOn(pod, log, outcome, partly, start) == FilesOn(pod, log[..n], outcome, partly, start)
  {
    hide Did;
    if n < |log| {
      var m := |log| - 1;
      assert log[..m][..n] == log[..n];
      OtherPods(pod, log[..m], n, outcome, partly, start);
    } else {
      assert log[..n] == log;
    }
  }

  lemma OneMoreCommand(pod: string, log: seq<Remote>, t: nat, outcome: nat -> bool, partly: nat -> bool, start: Files)
    requires t < |log| && log[t].pod == pod && outcome(t)
    ensures FilesOn(pod, log[..t + 1], outcome, partly, start) ==
            Did(log[t].command, FilesOn(pod, log[..t], outcome, partly, start))
  {
    hide Did;
    assert log[..t + 1][..t] == log[..t];
  }

  lemma PassedAttemptInstalls(a: Attempt, publicKey: string, log: seq<Remote>, outcome: nat -> bool,
                              partly: nat -> bool, start: Files)
    requires Logged(a, Commands(publicKey), log, outcome) && a.passed && Free(publicKey, '\'')
    ensures FilesOn(a.pod, log[..a.start + a.sent], outcome, partly, start) == Installed(publicKey)
  {
    hide Did, FilesOn, Free;
    var s, c := a.start, Commands(publicKey);
    CommandsInstall(publicKey, FilesOn(a.pod, log[..s], outcome, partly, start));
    assert log[s + 0] == Remote(a.pod, c[0].text);
    assert forall i :: 0 <= i < 5 ==> log[s + i] == Remote(a.pod, c[i].text) && outcome(s + i);
    OneMoreCommand(a.pod, log, s, outcome, partly, start);
    OneMoreCommand(a.pod, log, s + 1, outcome, partly, start);
    OneMoreCommand(a.pod, log, s + 2, outcome, partly, start);
    OneMoreCommand(a.pod, log, s + 3, outcome, partly, start);
    OneMoreCommand(a.pod, log, s + 4, outcome, partly, start);
  }

  /** The last attempt on the pod got through. */
  ghost predicate EndsPassed(attempts: seq<Attempt>, pod: string) {
    exists i :: 0 <= i < |attempts| && attempts[i].pod == pod && attempts[i].passed && NoLater(attempts, pod, i)
  }

  ghost predicate NoLater(attempts: seq<Attempt>, pod: string, i: int) {
    forall j :: i < j < |attempts| && 0 <= j ==> attempts[j].pod != pod
  }

  lemma {:induction false} JournalInstalls(attempts: seq<Attempt>, publicKey: string, from: nat, log: seq<Remote>,
                                           outcome: nat -> bool, partly: nat -> bool, pod: string, start: Files)
    requires Journal(attempts, Commands(publicKey), from, log, outcome) && EndsPassed(attempts, pod)
    requires Free(publicKey, '\'')
    ensures FilesOn(pod, log, outcome, partly, start) == Installed(publicKey)
  {
    hide Commands, FilesOn, Logged, Free;
    var i :| 0 <= i < |attempts| && attempts[i].pod == pod && attempts[i].passed && NoLater(attempts, pod, i);
    var init, last := attempts[..|attempts| - 1], attempts[|attempts| - 1];
    if i == |attempts| - 1 {
      PassedAttemptInstalls(last, publicKey, log, outcome, partly, start);
      assert log[..last.start + last.sent] == log;
    } else {
      assert init[i] == attempts[i] && NoLater(init, pod, i);
      JournalInstalls(init, publicKey, from, log[..last.start], outcome, partly, pod, start);
      LoggedOnPod(last, Commands(publicKey), log, outcome);
      OtherPods(pod, log, last.start, outcome, partly, start);
    }
  }

  lemma LoggedOnPod(a: Attempt, commands: seq<Command>, log: seq<Remote>, outcome: nat -> bool)
    requires Logged(a, commands, log, outcome) && |log| == a.start + a.sent
    ensures forall t :: a.start <= t < |log| ==> log[t].pod == a.pod
  {
    forall t | a.start <= t < |log|
      ensures log[t].pod == a.pod
    {
      assert log[a.start + (t - a.start)] == Remote(a.pod, commands[t - a.start].text);
    }
  }

  lemma {:induction false} GroupsEndPassed(groups: seq<seq<Attempt>>, pods: seq<string>, tries: nat, k: nat)
    requires |groups| == |pods| && k < |pods|
    requires forall i :: 0 <= i < |groups| ==> PodAttempts(groups[i], pods[i], tries, true)
    ensures EndsPassed(Flat(groups), pods[k])
  {
    hide PodAttempts;
    var n := |groups| - 1;
    var before, last := Flat(groups[..n]), groups[n];
    if pods[n] == pods[k] {
      LastOfGroup(before, last, pods[k], tries);
    } else {
      GroupsEndPassed(groups[..n], pods[..n], tries, k);
      EndsPassedStill(before, last, pods[n], pods[k], tries);
    }
  }

  lemma LastOfGroup(before: seq<Attempt>, group: seq<Attempt>, pod: string, tries: nat)
    requires PodAttempts(group, pod, tries, true)
    ensures EndsPassed(before + group, pod)
  {
    var all := before + group;
    assert all[|all| - 1] == group[|group| - 1] && NoLater(all, pod, |all| - 1);
  }

  lemma EndsPassedStill(before: seq<Attempt>, group: seq<Attempt>, other: string, pod: string, tries: nat)
    requires EndsPassed(before, pod) && PodAttempts(group, other, tries, true) && other != pod
    ensures EndsPassed(before + group, pod)
  {
    var all := before + group;
    var i :| 0 <= i < |before| && before[i].pod == pod && before[i].passed && NoLater(before, pod, i);
    assert all[i] == before[i];
    forall j | i < j < |all|
      ensures all[j].pod != pod
    {
      if j >= |before| {
        assert all[j] == group[j - |before|];
      }
    }
    assert NoLater(all, pod, i);
  }

  /** A step that copied the key to all pods without a panic leaves exactly this key on each of them. */
  lemma CompletedStepInstalls(groups: seq<seq<Attempt>>, pods: seq<string>, publicKey: string, tries: nat, from: nat,
                              log: seq<Remote>, outcome: nat -> bool, partly: nat -> bool, k: nat, start: Files)
    requires Journal(Flat(groups), Commands(publicKey), from, log, outcome)
    requires |groups| == |pods| && k < |pods| && Free(publicKey, '\'')
    requires forall i :: 0 <= i < |groups| ==> PodAttempts(groups[i], pods[i], tries, true)
    ensures FilesOn(pods[k], log, outcome, partly, start) == Installed(publicKey)
  {
    hide Commands, Journal, PodAttempts, Flat, FilesOn, Free;
    GroupsEndPassed(groups, pods, tries, k);
    JournalInstalls(Flat(groups), publicKey, from, log, outcome, partly, pods[k], start);
  }
}
