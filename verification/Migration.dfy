/**
 Upgrading the schema on every open (`Database._migrate` in storage/database.py). Each script runs
 in one transaction with the version it leads to, so a crash falls between scripts.
 */
module Migration {
  import opened Bytes

  /** What is on disk: the stored version, if any, and (for the record) the scripts run so far. */
  datatype Disk = Disk(version: Option<nat>, ran: seq<nat>)

  const NEW := Disk(None, [])

  function VersionOf(d: Disk): nat {
    if d.version.Some? then d.version.value else 1
  }

  /** One transaction: script number `VersionOf(d) - 1`, and the version after it. */
  function Advance(d: Disk): Disk
    requires VersionOf(d) >= 1
  {
    Disk(Some(VersionOf(d) + 1), d.ran + [VersionOf(d) - 1])
  }

  /** The scripts 0, 1, ..., n - 1. */
  function FirstScripts(n: nat): seq<nat> {
    seq(n, i => i)
  }

  /** The stored version tells exactly which scripts ran. */
  predicate Consistent(d: Disk) {
    VersionOf(d) >= 1 && d.ran == FirstScripts(VersionOf(d) - 1)
  }

  /**
   What one open leaves on disk: `known` scripts come with the release, `patience` is how many
   transactions it lives to commit.
   */
  function After(d: Disk, known: nat, patience: nat): Disk
    decreases patience
  {
    if VersionOf(d) < 1 || VersionOf(d) > known || patience == 0 then d else After(Advance(d), known, patience - 1)
  }

  class Database {
    var disk: Disk

    constructor ()
      ensures disk == NEW
    {
      disk := NEW;
    }

    method Migrate(known: nat, patience: nat) returns (completed: bool)
      requires Consistent(disk)
      modifies this
      ensures disk == After(old(disk), known, patience) && Consistent(disk)
      ensures completed <==> VersionOf(disk) > known
    {
      ghost var before := disk;
      var target, left := VersionOf(disk) + 1, patience;
      while target <= known + 1
        invariant Consistent(disk) && target == VersionOf(disk) + 1
        invariant After(disk, known, left) == After(before, known, patience)
      {
        if left == 0 {
          return false;
        }
        AdvanceKeepsConsistent(disk);
        disk := Advance(disk);
        target, left := target + 1, left - 1;
      }
      return true;
    }
  }

  lemma AdvanceKeepsConsistent(d: Disk)
    requires Consistent(d)
    ensures Consistent(Advance(d))
  {
    assert FirstScripts(VersionOf(d)) == FirstScripts(VersionOf(d) - 1) + [VersionOf(d) - 1];
  }

  lemma {:induction false} OpenKeepsConsistent(d: Disk, known: nat, patience: nat)
    requires Consistent(d)
    ensures Consistent(After(d, known, patience))
    ensures VersionOf(d) <= VersionOf(After(d, known, patience))
    ensures var version := VersionOf(After(d, known, patience));
      version > known || version == VersionOf(d) + patience
    ensures VersionOf(d) > known ==> After(d, known, patience) == d
    ensures VersionOf(d) <= known ==> VersionOf(After(d, known, patience)) <= known + 1
    decreases patience
  {
    if VersionOf(d) <= known && patience > 0 {
      AdvanceKeepsConsistent(d);
      OpenKeepsConsistent(Advance(d), known, patience - 1);
    }
  }

  /** One start of the daemon, of some release, that dies after so many transactions. */
  datatype Open = Open(known: nat, patience: nat)

  function AfterAll(opens: seq<Open>): Disk {
    if opens == [] then NEW
    else
      var last := opens[|opens| - 1];
      After(AfterAll(opens[..|opens| - 1]), last.known, last.patience)
  }

  /**
   Over any sequence of starts, upgrades, downgrades and crashes, each script has run exactly once and
   in order, and all the scripts of a release have run once one of its starts lives long enough.
   */
  lemma {:induction false} EachScriptRunsOnce(opens: seq<Open>, i: nat)
    requires i < |opens|
    ensures var ran := AfterAll(opens).ran;
      && ran == FirstScripts(|ran|) && VersionOf(AfterAll(opens)) == |ran| + 1
      && (opens[i].patience >= opens[i].known ==> |ran| >= opens[i].known)
    decreases |opens|
  {
    var before, last := opens[..|opens| - 1], opens[|opens| - 1];
    if before == [] {
      assert FirstScripts(0) == [];
    } else {
      EachScriptRunsOnce(before, if i < |before| then i else 0);
    }
    OpenKeepsConsistent(AfterAll(before), last.known, last.patience);
  }
}
