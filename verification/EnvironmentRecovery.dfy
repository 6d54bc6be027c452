/**
 Rebuilding and recovering the project's .venv (lvs_environment_manager.py): a write-ahead record plus
 directory renames. Every effect consumes one `Fate`, and the manager dies when no fate is left, so a
 contract that holds for every sequence of fates holds for a crash between any two effects.
 */
module EnvironmentRecovery {
  import opened Options

  /** Paths in the project root. A suffix stands for the timestamp and random digits of unique_backup. */
  datatype Name = Venv | Backup(suffix: nat) | Failed(suffix: nat) | Foreign(text: string)

  /** What a path holds. `recognized` says that the directory has a regular pyvenv.cfg. */
  datatype Node = Directory(id: nat, recognized: bool) | Symlink(dangling: bool) | File

  type Tree = map<Name, Node>

  /** path_identity: device and inode of a real directory. */
  function Identity(tree: Tree, name: Name): Option<nat>
  {
    if name in tree && tree[name].Directory? then Some(tree[name].id) else None
  }

  /** Path.exists, which follows symbolic links. */
  predicate Exists(tree: Tree, name: Name)
  {
    name in tree && tree[name] != Symlink(true)
  }

  function Moved(tree: Tree, from: Name, to: Name): Tree
    requires from in tree
  {
    (tree - {from})[to := tree[from]]
  }

  datatype Operation = Rebuild | Synchronize | Tools

  datatype Status = Running | Completed | Failure | Restored | CleanupUnconfirmed

  datatype Record = Record(root: nat, operation: Operation, status: Status,
                           oldId: Option<nat>, newId: Option<nat>, backup: Option<Name>)

  /** The durable operation record: absent, unreadable, or as last saved. */
  datatype RecordFile = Absent | Malformed | Saved(record: Record)

  /** How an effect goes: it happens; it raises without or after happening (an OSError, an interrupt);
      or the process dies before it. */
  datatype Fate = Done | Raises | RaisesAfter | Dies

  datatype Effect = Fine | Raised | Dead

  /** How the installer commands go; the last two leave an installer that cannot be confirmed dead,
      and a manager that dies while installing. */
  datatype Build = Built | BuildFails | BuildUnconfirmed | BuildDies

  /** How the installer commands look to the caller; an unconfirmed cleanup is handled apart from other errors. */
  function AfterInstall(build: Build): Effect
  {
    if build.BuildFails? then Raised else if build.BuildDies? then Dead else Fine
  }

  datatype Outcome = Success | Declined | Refused | Undone | Unconfirmed | Interrupted

  /** The last durable change. */
  datatype Change = Nothing | Made | Renamed | Persisted

  predicate SameDirectory(a: Node, b: Node) { a.Directory? && b.Directory? && a.id == b.id }

  /** No two paths are the same directory, and unused suffixes and identities are unused. */
  predicate Fresh(tree: Tree, nextSuffix: nat, nextId: nat)
  {
    && (forall m, n :: m in tree && n in tree && tree[m].Directory? && tree[n].Directory? && m != n ==>
          tree[m].id != tree[n].id)
    && (forall n :: n in tree ==> Used(n, tree[n], nextSuffix, nextId))
  }

  predicate Used(name: Name, node: Node, nextSuffix: nat, nextId: nat)
  {
    (node.Directory? ==> node.id < nextId) && Issued(name, nextSuffix)
  }

  predicate Issued(name: Name, nextSuffix: nat)
  {
    name.Backup? || name.Failed? ==> name.suffix < nextSuffix
  }

  /** The directory is at .venv, under a backup name or under a failed name. */
  ghost predicate Kept(tree: Tree, id: nat)
  {
    exists n :: n in tree && tree[n].Directory? && tree[n].id == id && (n.Venv? || n.Backup? || n.Failed?)
  }

  /** Names and identities are in order, and every directory that was ever at .venv still exists;
      by Fresh it exists under one name only. */
  ghost predicate Tidy(tree: Tree, nextSuffix: nat, nextId: nat, venvIds: set<nat>)
  {
    && Fresh(tree, nextSuffix, nextId)
    && (forall id :: id in venvIds ==> Kept(tree, id))
    && (Venv in tree && tree[Venv].Directory? ==> tree[Venv].id in venvIds)
  }

  function WithVenv(tree: Tree, venvIds: set<nat>): set<nat>
  {
    if Venv in tree && tree[Venv].Directory? then venvIds + {tree[Venv].id} else venvIds
  }

  lemma {:induction false} MovingKeepsTidy(tree: Tree, from: Name, to: Name, nextSuffix: nat, nextId: nat,
                                           venvIds: set<nat>)
    requires Tidy(tree, nextSuffix, nextId, venvIds) && from in tree && to !in tree
    requires (to.Venv? || to.Backup? || to.Failed?) && Issued(to, nextSuffix)
    ensures Tidy(Moved(tree, from, to), nextSuffix, nextId, WithVenv(Moved(tree, from, to), venvIds))
  {
    var after := Moved(tree, from, to);
    assert Used(from, tree[from], nextSuffix, nextId);
    forall id | id in WithVenv(after, venvIds) ensures Kept(after, id) {
      if id in venvIds {
        var n :| n in tree && tree[n].Directory? && tree[n].id == id && (n.Venv? || n.Backup? || n.Failed?);
        var n' := if n == from then to else n;
        assert n' in after && after[n'] == tree[n];
      } else {
        assert Venv in after && after[Venv].id == id;
      }
    }
  }

  lemma {:induction false} MakingKeepsTidy(tree: Tree, nextSuffix: nat, nextId: nat, venvIds: set<nat>)
    requires Tidy(tree, nextSuffix, nextId, venvIds) && Venv !in tree
    ensures Tidy(tree[Venv := Directory(nextId, false)], nextSuffix, nextId + 1, venvIds + {nextId})
  {
    var after := tree[Venv := Directory(nextId, false)];
    forall n | n in after ensures Used(n, after[n], nextSuffix, nextId + 1) {
      if n in tree { assert Used(n, tree[n], nextSuffix, nextId); }
    }
    forall n | n in tree && tree[n].Directory? ensures tree[n].id != nextId {
      assert Used(n, tree[n], nextSuffix, nextId);
    }
    forall id | id in venvIds + {nextId} ensures Kept(after, id) {
      if id in venvIds {
        var n :| n in tree && tree[n].Directory? && tree[n].id == id && (n.Venv? || n.Backup? || n.Failed?);
        assert n in after && after[n] == tree[n];
      } else {
        assert Venv in after && after[Venv].id == id;
      }
    }
  }

  lemma {:induction false} FillingKeepsTidy(tree: Tree, recognized: bool, nextSuffix: nat, nextId: nat,
                                            venvIds: set<nat>)
    requires Tidy(tree, nextSuffix, nextId, venvIds) && Venv in tree && tree[Venv].Directory?
    ensures Tidy(tree[Venv := Directory(tree[Venv].id, recognized)], nextSuffix, nextId, venvIds)
  {
    var after := tree[Venv := Directory(tree[Venv].id, recognized)];
    forall n | n in after ensures Used(n, after[n], nextSuffix, nextId) {
      assert Used(n, tree[n], nextSuffix, nextId);
    }
    forall id | id in venvIds ensures Kept(after, id) {
      var n :| n in tree && tree[n].Directory? && tree[n].id == id && (n.Venv? || n.Backup? || n.Failed?);
      assert n in after && after[n].Directory? && after[n].id == id;
    }
  }

  /** Where the directories of an unfinished rebuild are. */
  predicate Recoverable(r: Record, tree: Tree, original: Option<nat>)
  {
    && r.oldId == original
    && (r.newId.Some? ==> r.newId != r.oldId)
    && (match r.backup
        case None => original.None? && ReplacementAtVenv(r, tree)
        case Some(b) =>
          && b.Backup? && original.Some?
          && if b in tree then Identity(tree, b) == original && ReplacementAtVenv(r, tree)
             else Identity(tree, Venv) == original)
  }

  /** .venv is free, or holds the directory that the rebuild made. */
  predicate ReplacementAtVenv(r: Record, tree: Tree)
  {
    Venv in tree ==>
      && tree[Venv].Directory? && Some(tree[Venv].id) != r.oldId
      && (r.newId.None? || Some(tree[Venv].id) == r.newId)
  }

  /** One maintenance action with the fates of its effects. */
  datatype Action =
    | Replace(fates: seq<Fate>, supported: bool, build: Build, recognized: bool)
    | Recover(fates: seq<Fate>, confirmed: bool)
    | Sync(fates: seq<Fate>, tools: bool, build: Build, recognized: bool)

  /** The first n effects neither fail nor are cut short. */
  predicate Undisturbed(fates: seq<Fate>, n: nat)
  {
    |fates| >= n && forall k :: 0 <= k < n ==> fates[k].Done?
  }

  class EnvironmentManager {
    const root: nat
    var tree: Tree
    var record: RecordFile
    var fates: seq<Fate>      // of the effects to come
    var nextSuffix: nat       // unique_backup never repeats
    var nextId: nat           // identities of new directories
    var installs: nat         // installer runs started
    ghost var venvIds: set<nat>         // every directory that was ever at .venv
    ghost var original: Option<nat>     // what was at .venv when the latest rebuild began
    ghost var lastChange: Change

    // ----- the invariant

    /** The record announces an unfinished rebuild of this project. */
    predicate Pending()
      reads this
    {
      record.Saved? && record.record.root == root && record.record.operation.Rebuild? && record.record.status.Running?
    }

    /** A directory is at .venv that the record knows nothing about. */
    predicate Unrecorded()
      reads this
    {
      Pending() && record.record.newId.None? && Venv in tree && Identity(tree, Venv) != record.record.oldId
    }

    ghost predicate Valid()
      reads this
    {
      && Tidy(tree, nextSuffix, nextId, venvIds)
      && (original.Some? ==> original.value < nextId)
      && (Pending() ==> Recoverable(record.record, tree, original)
                        && (record.record.backup.Some? ==> Issued(record.record.backup.value, nextSuffix)))
      && (Unrecorded() <==> Pending() && lastChange.Made?)
    }

    /** Any project directory with any record that does not announce an unfinished rebuild of this project. */
    constructor (root: nat, tree: Tree, record: RecordFile, nextSuffix: nat, nextId: nat)
      requires Fresh(tree, nextSuffix, nextId)
      requires record.Saved? && record.record.root == root && record.record.operation.Rebuild? ==>
                 !record.record.status.Running?
      ensures Valid() && this.root == root && this.tree == tree && this.record == record
    {
      this.root, this.tree, this.record, this.fates := root, tree, record, [];
      this.nextSuffix, this.nextId, this.installs := nextSuffix, nextId, 0;
      this.venvIds := WithVenv(tree, {});
      this.original, this.lastChange := None, Nothing;
    }

    // ----- effects

    static function Rest(fates: seq<Fate>): seq<Fate>
    {
      if fates == [] then [] else fates[1..]
    }

    /** The next n effects neither fail nor are cut short. */
    predicate Calm(n: nat)
      reads this
    {
      Undisturbed(fates, n)
    }

    method NextFate() returns (fate: Fate)
      modifies this`fates
      ensures fate == if old(fates) == [] then Dies else old(fates)[0]
      ensures fates == Rest(old(fates))
    {
      if fates == [] { return Dies; }
      fate, fates := fates[0], fates[1..];
    }

    /** os.rename; its target must be free, so no rename lands on an occupied path. */
    method Rename(from: Name, to: Name) returns (effect: Effect)
      requires from in tree && to !in tree && Tidy(tree, nextSuffix, nextId, venvIds)
      requires (to.Venv? || to.Backup? || to.Failed?) && Issued(to, nextSuffix)
      modifies this`fates, this`tree, this`venvIds, this`lastChange
      ensures fates == Rest(old(fates)) && (effect.Fine? <==> old(fates) != [] && old(fates)[0].Done?)
      ensures Tidy(tree, nextSuffix, nextId, venvIds)
      ensures || (!effect.Fine? && tree == old(tree) && venvIds == old(venvIds) && lastChange == old(lastChange))
              || (!effect.Dead? && tree == Moved(old(tree), from, to) && lastChange.Renamed?
                  && venvIds == WithVenv(tree, old(venvIds)))
    {
      var fate := NextFate();
      if fate.Done? || fate.RaisesAfter? {
        MovingKeepsTidy(tree, from, to, nextSuffix, nextId, venvIds);
        tree, lastChange := Moved(tree, from, to), Renamed;
        venvIds := WithVenv(tree, venvIds);
      }
      effect := match fate case Done => Fine case Dies => Dead case _ => Raised;
    }

    /** Creates .venv with an identity that no path has. */
    method MakeVenv() returns (effect: Effect)
      requires Venv !in tree && Tidy(tree, nextSuffix, nextId, venvIds)
      modifies this`fates, this`tree, this`venvIds, this`nextId, this`lastChange
      ensures fates == Rest(old(fates)) && (effect.Fine? <==> old(fates) != [] && old(fates)[0].Done?)
      ensures Tidy(tree, nextSuffix, nextId, venvIds)
      ensures || (!effect.Fine? && tree == old(tree) && venvIds == old(venvIds) && nextId == old(nextId)
                  && lastChange == old(lastChange))
              || (!effect.Dead? && tree == old(tree)[Venv := Directory(old(nextId), false)] && lastChange.Made?
                  && venvIds == old(venvIds) + {old(nextId)} && nextId == old(nextId) + 1)
    {
      var fate := NextFate();
      if fate.Done? || fate.RaisesAfter? {
        MakingKeepsTidy(tree, nextSuffix, nextId, venvIds);
        tree, venvIds, lastChange := tree[Venv := Directory(nextId, false)], venvIds + {nextId}, Made;
        nextId := nextId + 1;
      }
      effect := match fate case Done => Fine case Dies => Dead case _ => Raised;
    }

    /** save_operation: a temporary file, fsync, atomic replace. */
    method Save(r: Record) returns (effect: Effect)
      modifies this`fates, this`record, this`lastChange
      ensures fates == Rest(old(fates)) && (effect.Fine? <==> old(fates) != [] && old(fates)[0].Done?)
      ensures || (!effect.Fine? && record == old(record) && lastChange == old(lastChange))
              || (!effect.Dead? && record == Saved(r.(root := root)) && lastChange.Persisted?)
    {
      var fate := NextFate();
      if fate.Done? || fate.RaisesAfter? {
        record, lastChange := Saved(r.(root := root)), Persisted;
      }
      effect := match fate case Done => Fine case Dies => Dead case _ => Raised;
    }

    /** The installer commands; they fill the directory at .venv but keep its identity. None may start while the
        record does not know the directory. */
    method Install(recognized: bool)
      requires !Unrecorded()
      requires Venv in tree && tree[Venv].Directory? && Tidy(tree, nextSuffix, nextId, venvIds)
      modifies this`tree, this`installs
      ensures Tidy(tree, nextSuffix, nextId, venvIds)
      ensures tree == old(tree)[Venv := Directory(old(tree)[Venv].id, recognized)] && installs == old(installs) + 1
    {
      FillingKeepsTidy(tree, recognized, nextSuffix, nextId, venvIds);
      tree, installs := tree[Venv := Directory(tree[Venv].id, recognized)], installs + 1;
    }

    // ----- operations

    /** check_pending_operation raises. */
    predicate Blocked()
      reads this
    {
      || record.Malformed?
      || (record.Saved? && record.record.status.CleanupUnconfirmed?)
      || (record.Saved? && record.record.root != root && record.record.status.Running?)
      || (record.Saved? && record.record.operation.Rebuild? && record.record.status.Running?)
    }

    /** check_pending_operation, branch by branch. */
    method CheckPendingOperation() returns (raises: bool)
      ensures raises == Blocked()
    {
      if record.Malformed? {
        return true;
      }
      raises := false;
      if record.Saved? {
        var r := record.record;
        if r.root != root && (r.status.Running? || r.status.CleanupUnconfirmed?) {
          return true;
        }
        if r.status.CleanupUnconfirmed? {
          return true;
        }
        raises := r.operation.Rebuild? && r.status.Running?;
      }
    }

    /** replace_environment refuses to touch a .venv that is not a recognized environment. */
    predicate Replaceable()
      reads this
    {
      Venv in tree ==> tree[Venv].Directory? && tree[Venv].recognized
    }

    /** The paths other than .venv, all of which a rebuild leaves alone. */
    predicate OthersKept(before: Tree)
      reads this
    {
      forall n :: n in before && !n.Venv? ==> n in tree && tree[n] == before[n]
    }

    /** What an attempted rebuild of `before` has come to, as the record tells it: nothing was changed; or it is
        unfinished; or the old environment is back at .venv (or .venv is absent again); or the new one is there. */
    predicate Settled(before: Tree, recordBefore: RecordFile, newId: nat)
      reads this
    {
      || (record == recordBefore && tree == before)
      || (&& record.Saved? && record.record.root == root && record.record.operation.Rebuild?
          && match record.record.status
             case Running => true
             case Restored | Failure =>
               Identity(tree, Venv) == Identity(before, Venv) && (Venv in tree <==> Venv in before)
             case Completed | CleanupUnconfirmed => Identity(tree, Venv) == Some(newId))
    }

    /** unique_backup. */
    method UniqueSuffix() returns (suffix: nat)
      requires Valid()
      modifies this`nextSuffix
      ensures Valid() && suffix == old(nextSuffix) && nextSuffix == suffix + 1
      ensures Backup(suffix) !in tree && Failed(suffix) !in tree
      ensures Pending() ==> record.record.backup != Some(Backup(suffix))
    {
      suffix := nextSuffix;
      assert forall n :: n in tree && Used(n, tree[n], nextSuffix, nextId) ==> Used(n, tree[n], nextSuffix + 1, nextId);
      nextSuffix := nextSuffix + 1;
    }

    /** Makes the plan of the rebuild durable before anything is moved. */
    method WriteAhead() returns (r: Record, effect: Effect)
      requires Valid() && !Blocked() && Replaceable()
      modifies this
      ensures Valid() && tree == old(tree) && venvIds == old(venvIds)
      ensures nextId == old(nextId) && installs == old(installs)
      ensures if Pending() then record.record == r && original == Identity(tree, Venv) else record == old(record)
      ensures effect.Fine? ==> Pending()
      ensures old(Calm(7)) ==> effect.Fine? && Calm(6)
      ensures r.newId.None? && r.backup == (if Venv in tree then Some(Backup(old(nextSuffix))) else None)
      ensures r.backup.Some? ==> r.backup.value !in tree && Issued(r.backup.value, nextSuffix)
    {
      var backup: Option<Name> := None;
      if Venv in tree {
        var suffix := UniqueSuffix();
        backup := Some(Backup(suffix));
      }
      original := Identity(tree, Venv);
      assert Venv in tree ==> Used(Venv, tree[Venv], nextSuffix, nextId);
      r := Record(root, Rebuild, Running, Identity(tree, Venv), None, backup);
      effect := Save(r);
    }

    /** Announces the rebuild in the record, then renames the old environment out of the way. */
    method Announce() returns (r: Record, effect: Effect)
      requires Valid() && !Blocked() && Replaceable()
      modifies this
      ensures Valid() && OthersKept(old(tree))
      ensures venvIds == old(venvIds) && nextId == old(nextId) && installs == old(installs)
      ensures Pending() || (record == old(record) && tree == old(tree))
      ensures Pending() ==> original == old(Identity(tree, Venv))
      ensures effect.Fine? ==>
                && Pending() && record.record == r && r.newId.None?
                && r.backup == (if Venv in old(tree) then Some(Backup(old(nextSuffix))) else None)
                && tree == (if Venv in old(tree) then Moved(old(tree), Venv, Backup(old(nextSuffix))) else old(tree))
      ensures old(Calm(7)) ==> effect.Fine? && Calm(5)
    {
      r, effect := WriteAhead();
      if effect.Fine? && r.backup.Some? {
        effect := Rename(Venv, r.backup.value);
      }
    }

    /** Only the content of .venv differs. */
    predicate OnlyVenvDiffers(before: Tree)
      reads this
    {
      OthersKept(before) && forall n :: n in tree && !n.Venv? ==> n in before
    }

    /** Makes the new directory and records its identity. */
    method MakeReplacement(r: Record) returns (r': Record, effect: Effect)
      requires Valid() && Pending() && record.record == r && r.newId.None? && Venv !in tree && r.root == root
      modifies this
      ensures Valid() && OnlyVenvDiffers(old(tree)) && old(venvIds) <= venvIds && installs == old(installs)
      ensures original == old(original) && nextSuffix == old(nextSuffix)
      ensures Pending() && r' == r.(newId := r'.newId) && record.record.backup == r.backup
      ensures r'.newId.Some? ==> r'.newId == Some(old(nextId))
      ensures effect.Fine? ==>
                && Venv in tree && Identity(tree, Venv) == r'.newId == Some(old(nextId))
                && record.record == r' && !Unrecorded()
      ensures old(Calm(5)) ==> effect.Fine? && Calm(3)
    {
      r' := r;
      effect := MakeVenv();
      if effect.Fine? {
        r' := r.(newId := Identity(tree, Venv));
        effect := Save(r');
      }
    }

    /** Makes the new directory, records its identity and runs the installers. */
    method Populate(r: Record, build: Build, recognized: bool) returns (r': Record, effect: Effect)
      requires Valid() && Pending() && record.record == r && r.newId.None? && Venv !in tree && r.root == root
      modifies this
      ensures Valid() && OnlyVenvDiffers(old(tree)) && old(venvIds) <= venvIds
      ensures original == old(original) && nextSuffix == old(nextSuffix)
      ensures Pending() && r' == r.(newId := r'.newId) && record.record.backup == r.backup
      ensures r'.newId.Some? ==> r'.newId == Some(old(nextId))
      ensures effect.Fine? ==> Identity(tree, Venv) == r'.newId == Some(old(nextId)) && record.record == r'
      ensures installs == old(installs) || (installs == old(installs) + 1 && record.record.newId.Some?
                                            && record.record.newId == Identity(tree, Venv))
      ensures effect.Fine? ==> installs == old(installs) + 1 && (build.Built? || build.BuildUnconfirmed?)
      ensures installs == old(installs) ==> !effect.Fine?
      ensures installs != old(installs) ==> effect == AfterInstall(build)
      ensures old(Calm(5)) ==> installs != old(installs) && Calm(3)
    {
      r', effect := MakeReplacement(r);
      if effect.Fine? {
        Install(recognized);
        match build {
          case Built =>
          case BuildUnconfirmed =>
          case BuildFails => effect := Raised;
          case BuildDies => effect := Dead;
        }
      }
    }

    /** Neither the outcome nor a newly saved status ever claims more than the installer commands did. */
    predicate Tells(build: Build, outcome: Outcome, recordBefore: RecordFile, installsBefore: nat)
      reads this
    {
      && (outcome.Success? ==> build.Built? && installs == installsBefore + 1)
      && (outcome.Unconfirmed? ==> build.BuildUnconfirmed? && installs == installsBefore + 1)
      && (record != recordBefore ==>
            && record.Saved?
            && (record.record.status.Completed? ==> build.Built? && installs == installsBefore + 1)
            && (record.record.status.CleanupUnconfirmed? ==> build.BuildUnconfirmed? && installs == installsBefore + 1))
      && (build.BuildUnconfirmed? && installs != installsBefore ==>
            record.Saved? && (record.record.status.Running? || record.record.status.CleanupUnconfirmed?))
    }

    /** How a rebuild ends that nothing else disturbs. */
    predicate Ends(build: Build, outcome: Outcome)
      reads this
    {
      match build
      case Built => outcome.Success? && record.Saved? && record.record.status.Completed?
      case BuildFails =>
        outcome.Undone? && record.Saved? && (record.record.status.Restored? || record.record.status.Failure?)
      case BuildUnconfirmed => outcome.Unconfirmed? && LatchedUnconfirmed()
      case BuildDies => outcome.Interrupted? && Pending()
    }

    /** replace_environment. A raised error inside the rebuild is undone by its handler; a death is not. */
    method ReplaceEnvironment(supported: bool, build: Build, recognized: bool) returns (outcome: Outcome)
      requires Valid()
      modifies this
      ensures Valid() && OthersKept(old(tree)) && old(venvIds) <= venvIds
      ensures outcome.Refused? <==> old(Blocked() || !supported || !Replaceable())
      ensures outcome.Refused? ==> tree == old(tree) && record == old(record) && installs == old(installs)
      ensures outcome.Success? ==>
                && !Pending() && Identity(tree, Venv) == Some(old(nextId))
                && (Venv in old(tree) ==> Backup(old(nextSuffix)) in tree
                                          && tree[Backup(old(nextSuffix))] == old(tree)[Venv])
      ensures outcome.Undone? ==>
                !Pending() && (Venv in tree <==> Venv in old(tree)) && (Venv in tree ==> tree[Venv] == old(tree)[Venv])
      ensures outcome.Unconfirmed? ==> LatchedUnconfirmed()
      ensures !outcome.Refused? ==>
                Settled(old(tree), old(record), old(nextId)) && (Pending() ==> original == old(Identity(tree, Venv)))
      ensures !outcome.Declined?
      ensures !outcome.Refused? ==> Tells(build, outcome, old(record), old(installs))
      ensures !outcome.Refused? && old(Calm(7)) ==> Ends(build, outcome)
    {
      var pending := CheckPendingOperation();
      if pending || !supported || (Venv in tree && (!tree[Venv].Directory? || !tree[Venv].recognized)) {
        return Refused;
      }
      outcome := AttemptRebuild(build, recognized);
    }

    /** Saves how the installer commands went. */
    method SaveResult(r: Record, status: Status) returns (outcome: Outcome)
      requires status.Completed? || status.CleanupUnconfirmed? || status.Failure?
      modifies this`fates, this`record, this`lastChange
      ensures || (outcome.Interrupted? && record == old(record) && lastChange == old(lastChange))
              || (record == Saved(r.(root := root, status := status)) && lastChange.Persisted?)
      ensures outcome.Interrupted? || outcome == Reported(status)
      ensures old(Calm(1)) ==> !outcome.Interrupted?
    {
      outcome := Interrupted;
      var effect := Save(r.(status := status));
      if effect.Fine? {
        outcome := match status case Completed => Success case CleanupUnconfirmed => Unconfirmed case _ => Undone;
      }
    }

    /** The outcome that goes with a saved status. */
    static function Reported(status: Status): Outcome
    {
      if status.Completed? then Success else if status.CleanupUnconfirmed? then Unconfirmed else Undone
    }

    /** The part of replace_environment after its checks. */
    method AttemptRebuild(build: Build, recognized: bool) returns (outcome: Outcome)
      requires Valid() && !Blocked() && Replaceable()
      modifies this
      ensures Valid() && OthersKept(old(tree)) && old(venvIds) <= venvIds
      ensures outcome.Success? ==>
                && !Pending() && Identity(tree, Venv) == Some(old(nextId))
                && (Venv in old(tree) ==> Backup(old(nextSuffix)) in tree
                                          && tree[Backup(old(nextSuffix))] == old(tree)[Venv])
      ensures outcome.Undone? ==>
                !Pending() && (Venv in tree <==> Venv in old(tree)) && (Venv in tree ==> tree[Venv] == old(tree)[Venv])
      ensures outcome.Unconfirmed? ==> LatchedUnconfirmed()
      ensures Settled(old(tree), old(record), old(nextId)) && (Pending() ==> original == old(Identity(tree, Venv)))
      ensures !outcome.Declined? && !outcome.Refused?
      ensures Tells(build, outcome, old(record), old(installs))
      ensures old(Calm(7)) ==> Ends(build, outcome)
    {
      outcome := Interrupted;
      var r, effect := Announce();
      if effect.Fine? {
        outcome := FinishRebuild(r, build, recognized);
      }
    }

    /** The part of replace_environment after the old environment has been moved out of the way. */
    method FinishRebuild(r: Record, build: Build, recognized: bool) returns (outcome: Outcome)
      requires Valid() && Pending() && record.record == r && r.newId.None? && Venv !in tree && r.root == root
      requires r.backup.Some? ==> r.backup.value in tree
      modifies this
      ensures Valid() && old(venvIds) <= venvIds && original == old(original)
      ensures !outcome.Declined? && !outcome.Refused?
      ensures forall n :: n in old(tree) && Some(n) != r.backup ==> n in tree && tree[n] == old(tree)[n]
      ensures r.backup.Some? ==>
                if r.backup.value in tree then tree[r.backup.value] == old(tree)[r.backup.value]
                else Venv in tree && tree[Venv] == old(tree)[r.backup.value]
      ensures outcome.Success? ==>
                !Pending() && Identity(tree, Venv) == Some(old(nextId)) && (r.backup.Some? ==> r.backup.value in tree)
      ensures outcome.Undone? ==>
                && !Pending() && (Venv in tree <==> r.backup.Some?)
                && (r.backup.Some? ==> tree[Venv] == old(tree)[r.backup.value])
      ensures outcome.Unconfirmed? ==> LatchedUnconfirmed()
      ensures record.Saved? && record.record.root == root && record.record.operation.Rebuild?
      ensures match record.record.status
              case Running => true
              case Restored | Failure => Identity(tree, Venv) == original && (Venv in tree <==> r.backup.Some?)
              case Completed | CleanupUnconfirmed => Identity(tree, Venv) == Some(old(nextId))
      ensures Tells(build, outcome, old(record), old(installs))
      ensures old(Calm(5)) ==> Ends(build, outcome)
    {
      outcome := Interrupted;
      var r', effect := Populate(r, build, recognized);
      match effect {
        case Dead =>
        case Raised =>
          outcome := UndoRebuild(r');
        case Fine =>
          outcome := SaveResult(r', if build.BuildUnconfirmed? then CleanupUnconfirmed else Completed);
      }
    }

    /** Renames .venv to a failed name; the backup, if there is one, has not been moved back yet. */
    method SetAside() returns (effect: Effect)
      requires Valid() && Pending() && Venv in tree
      requires record.record.backup.Some? ==> record.record.backup.value in tree
      modifies this
      ensures Valid() && old(venvIds) <= venvIds && record == old(record)
      ensures installs == old(installs) && original == old(original)
      ensures fates == Rest(old(fates)) && (effect.Fine? <==> old(fates) != [] && old(fates)[0].Done?)
      ensures tree == old(tree) || tree == Moved(old(tree), Venv, Failed(old(nextSuffix)))
      ensures effect.Fine? ==> Venv !in tree
      ensures old(!Unrecorded()) ==> !Unrecorded()
    {
      var suffix := UniqueSuffix();
      effect := Rename(Venv, Failed(suffix));
    }

    /** Renames the backup back to .venv, if there is one, and closes the record. */
    method RestoreBackup(r: Record) returns (effect: Effect)
      requires Valid() && Pending() && Venv !in tree && r.root == root && r.operation.Rebuild? && r.oldId == original
      requires r.backup == record.record.backup && (r.backup.Some? ==> r.backup.value in tree)
      modifies this
      ensures Valid() && old(venvIds) <= venvIds && installs == old(installs) && original == old(original)
      ensures if Pending() then !effect.Fine? && record == old(record) && !Unrecorded()
              else Closed(if r.backup.Some? then Restored else Failure)
      ensures old(Calm(2)) ==> effect.Fine?
      ensures if Venv in tree then r.backup.Some? && tree == Moved(old(tree), r.backup.value, Venv)
              else tree == old(tree) && (Pending() || r.backup.None?)
    {
      effect := Fine;
      if r.backup.Some? {
        effect := Rename(r.backup.value, Venv);
      }
      if effect.Fine? {
        effect := Save(r.(status := if r.backup.Some? then Restored else Failure));
      }
    }

    /** The record says that the rebuild of this project ended with this status. */
    predicate Closed(status: Status)
      reads this
    {
      && record.Saved? && record.record.root == root && record.record.operation.Rebuild?
      && record.record.status == status && !status.Running?
    }

    /** The exception handler of replace_environment. */
    method UndoRebuild(r: Record) returns (outcome: Outcome)
      requires Valid() && Pending() && r.root == root && r.operation.Rebuild? && r.oldId == original
      requires r.backup == record.record.backup && (r.backup.Some? ==> r.backup.value in tree)
      modifies this
      ensures Valid() && old(venvIds) <= venvIds && installs == old(installs) && original == old(original)
      ensures outcome.Undone? || outcome.Interrupted?
      ensures old(Calm(3)) ==> outcome.Undone?
      ensures Pending() || (record.Saved? && record.record.root == root && record.record.operation.Rebuild?
                            && record.record.status == (if r.backup.Some? then Restored else Failure)
                            && (Venv in tree <==> r.backup.Some?) && Identity(tree, Venv) == original)
      ensures outcome.Undone? ==>
                && !Pending() && (Venv in tree <==> r.backup.Some?)
                && (r.backup.Some? ==> tree[Venv] == old(tree[r.backup.value]))
      ensures forall n :: n in old(tree) && !n.Venv? && Some(n) != r.backup ==> n in tree && tree[n] == old(tree[n])
      ensures r.backup.Some? && r.backup.value !in tree ==> Venv in tree && tree[Venv] == old(tree[r.backup.value])
      ensures r.backup.Some? && r.backup.value in tree ==> tree[r.backup.value] == old(tree[r.backup.value])
    {
      outcome := Interrupted;
      if Venv in tree {
        var effect := SetAside();
        if !effect.Fine? { return; }
      }
      var effect := RestoreBackup(r);
      if effect.Fine? { outcome := Undone; }
    }

    /** The crash came before the old environment was moved: it is still at .venv. */
    predicate Unmoved()
      reads this
    {
      && record.Saved? && record.record.backup.Some? && record.record.backup.value !in tree
      && record.record.oldId.Some? && Identity(tree, Venv) == record.record.oldId
    }

    /** recover_interrupted. `confirmed` is the answer to its question. */
    method RecoverInterrupted(confirmed: bool) returns (outcome: Outcome)
      requires Valid()
      modifies this
      ensures Valid() && old(venvIds) <= venvIds && installs == old(installs) && original == old(original)
      ensures outcome.Refused? <==> old(!Pending() || Unrecorded())
      ensures outcome.Refused? || outcome.Declined? ==> tree == old(tree) && record == old(record)
      ensures outcome.Declined? ==> !confirmed
      ensures outcome.Success? ==> !Pending()
      ensures old(Pending() && !Unrecorded()) ==>
                && record.Saved? && record.record.root == root && record.record.operation.Rebuild?
                && (Pending() ==> !Unrecorded())
                && (!Pending() ==>
                      && record.record.status == (if original.Some? then Restored else Failure)
                      && Identity(tree, Venv) == original && (Venv in tree <==> original.Some?))
      ensures confirmed && old(Calm(3)) && !outcome.Refused? ==> outcome.Success?
      ensures !confirmed ==> tree == old(tree)
      ensures outcome.Declined? <==> !confirmed && old(Pending() && !Unrecorded() && !Unmoved())
      ensures old(Pending() && Unmoved()) ==> tree == old(tree)
      ensures old(Pending() && Unmoved() && Calm(1)) ==> outcome.Success?
      ensures outcome.Success? || outcome.Declined? || outcome.Refused? || outcome.Interrupted?
    {
      if !record.Saved? || record.record.root != root
         || !record.record.status.Running? || !record.record.operation.Rebuild? {
        return Refused;
      }
      var r := record.record;
      if r.backup.Some? {
        var b := r.backup.value;
        if b.Backup? && r.oldId.Some? && !Exists(tree, b) && Identity(tree, Venv) == r.oldId {
          var effect := Save(r.(status := Restored));
          return if effect.Fine? then Success else Interrupted;
        }
        if !b.Backup? || Identity(tree, b) != r.oldId {
          return Refused;
        }
      }
      if Venv in tree {
        if r.newId.None? || Identity(tree, Venv) != r.newId {
          // The second look for an original that was never moved finds nothing: the first one came before it.
          assert r.backup.Some? ==> Exists(tree, r.backup.value);
          return Refused;
        }
      }
      if !confirmed {
        return Declined;
      }
      outcome := MoveBack(r);
    }

    /** The moves of a confirmed recovery. */
    method MoveBack(r: Record) returns (outcome: Outcome)
      requires Valid() && Pending() && record.record == r && !Unrecorded()
      requires r.backup.Some? ==> r.backup.value in tree
      modifies this
      ensures Valid() && old(venvIds) <= venvIds && installs == old(installs) && original == old(original)
      ensures outcome.Success? || outcome.Interrupted?
      ensures outcome.Success? ==> !Pending()
      ensures old(Calm(3)) ==> outcome.Success?
      ensures record.Saved? && record.record.root == root && record.record.operation.Rebuild?
      ensures Pending() ==> !Unrecorded()
      ensures !Pending() ==>
                && record.record.status == (if original.Some? then Restored else Failure)
                && Identity(tree, Venv) == original && (Venv in tree <==> original.Some?)
    {
      outcome := Interrupted;
      if Exists(tree, Venv) {
        var effect := SetAside();
        if !effect.Fine? { return; }
      }
      var effect := RestoreBackup(r);
      if effect.Fine? { outcome := Success; }
    }

    /** The installer commands of a package update, if the environment is a recognized one: the status to save, or
        None when the manager dies with them. */
    method InstallPackages(build: Build, recognized: bool) returns (status: Option<Status>)
      requires Valid() && !Pending()
      modifies this`tree, this`installs
      ensures Valid() && !Pending() && OnlyVenvDiffers(old(tree)) && Identity(tree, Venv) == old(Identity(tree, Venv))
      ensures status.None? <==> build.BuildDies? && installs != old(installs)
      ensures status.Some? ==> status.value == old(UpdateStatus(build))
      ensures installs == old(installs) + if old(Replaceable() && Venv in tree) then 1 else 0
    {
      status := Some(Failure);
      if Venv in tree && tree[Venv].Directory? && tree[Venv].recognized {
        Install(recognized);
        status := match build
          case Built => Some(Completed)
          case BuildFails => Some(Failure)
          case BuildUnconfirmed => Some(CleanupUnconfirmed)
          case BuildDies => None;
      }
    }

    /** The status that a package update deserves. */
    function UpdateStatus(build: Build): Status
      reads this
    {
      if !Replaceable() || Venv !in tree || build.BuildFails? then Failure
      else if build.Built? then Completed else CleanupUnconfirmed
    }

    /** synchronize_groups: packages are changed in place, so there is nothing to recover. */
    method SynchronizeGroups(tools: bool, build: Build, recognized: bool) returns (outcome: Outcome)
      requires Valid()
      modifies this
      ensures Valid() && OnlyVenvDiffers(old(tree)) && venvIds == old(venvIds)
      ensures Identity(tree, Venv) == old(Identity(tree, Venv))
      ensures outcome.Refused? <==> old(Blocked())
      ensures outcome.Refused? ==> tree == old(tree) && record == old(record) && installs == old(installs)
      ensures !outcome.Refused? ==> !Pending()
      ensures outcome.Unconfirmed? ==> LatchedUnconfirmed()
      ensures !outcome.Refused? ==> Tells(build, outcome, old(record), old(installs))
      ensures !outcome.Refused? && old(Calm(2)) && (!build.BuildDies? || installs == old(installs)) ==>
                && outcome == Reported(old(UpdateStatus(build)))
                && record.Saved? && record.record.status == old(UpdateStatus(build))
      ensures !outcome.Refused? && record != old(record) ==>
                record.Saved? && record.record.operation == if tools then Tools else Synchronize
    {
      var pending := CheckPendingOperation();
      if pending {
        return Refused;
      }
      outcome := UpdatePackages(if tools then Tools else Synchronize, build, recognized);
    }

    /** The part of synchronize_groups after its check. */
    method UpdatePackages(operation: Operation, build: Build, recognized: bool) returns (outcome: Outcome)
      requires Valid() && !Blocked() && !operation.Rebuild?
      modifies this
      ensures Valid() && OnlyVenvDiffers(old(tree)) && venvIds == old(venvIds) && !Pending()
      ensures Identity(tree, Venv) == old(Identity(tree, Venv))
      ensures outcome.Interrupted? || outcome == Reported(old(UpdateStatus(build)))
      ensures outcome.Unconfirmed? ==> LatchedUnconfirmed()
      ensures Tells(build, outcome, old(record), old(installs))
      ensures old(Calm(2)) && (!build.BuildDies? || installs == old(installs)) ==>
                !outcome.Interrupted? && record.Saved? && record.record.status == old(UpdateStatus(build))
      ensures record != old(record) ==> record.Saved? && record.record.operation == operation
    {
      outcome := Interrupted;
      var r := Record(root, operation, Running, None, None, None);
      var effect := Save(r);
      if effect.Fine? {
        var status := InstallPackages(build, recognized);
        if status.Some? {
          outcome := SaveResult(r, status.value);
        }
      }
    }

    // ----- runs

    predicate LatchedUnconfirmed()
      reads this
    {
      record.Saved? && record.record.status.CleanupUnconfirmed?
    }

    /** One action; undisturbed it does what it is for. */
    method Perform(op: Action) returns (outcome: Outcome)
      requires Valid()
      modifies this
      ensures Valid() && old(venvIds) <= venvIds
      ensures old(LatchedUnconfirmed()) ==> tree == old(tree) && record == old(record) && installs == old(installs)
      ensures op.Replace? && op.supported && Undisturbed(op.fates, 7) && old(!Blocked() && Replaceable()) ==>
                Ends(op.build, outcome)
      ensures op.Recover? && op.confirmed && Undisturbed(op.fates, 3) && old(Pending() && !Unrecorded()) ==>
                outcome.Success?
      ensures op.Sync? && !op.build.BuildDies? && Undisturbed(op.fates, 2) && old(!Blocked()) ==>
                outcome == Reported(old(UpdateStatus(op.build)))
    {
      fates := op.fates;
      match op {
        case Replace(_, supported, build, recognized) =>
          outcome := ReplaceEnvironment(supported, build, recognized);
        case Recover(_, confirmed) =>
          outcome := RecoverInterrupted(confirmed);
        case Sync(_, tools, build, recognized) =>
          outcome := SynchronizeGroups(tools, build, recognized);
      }
    }

    /** Any run of rebuilds, package updates and recoveries, each with its own failures or death: every
        directory that was ever at .venv still exists, under exactly one of the three kinds of names, and
        once the record says that a cleanup is unconfirmed nothing is moved, saved or installed any more. */
    method Run(ops: seq<Action>)
      requires Valid()
      modifies this
      ensures Valid() && old(venvIds) <= venvIds
      ensures forall id :: id in venvIds ==> Kept(tree, id)
      ensures forall m, n :: m in tree && n in tree && SameDirectory(tree[m], tree[n]) ==> m == n
      ensures old(LatchedUnconfirmed()) ==> tree == old(tree) && record == old(record) && installs == old(installs)
    {
      for i := 0 to |ops|
        invariant Valid() && old(venvIds) <= venvIds
        invariant old(LatchedUnconfirmed()) ==> tree == old(tree) && record == old(record) && installs == old(installs)
      {
        var _ := Perform(ops[i]);
      }
    }

    /** A rebuild of `before` is settled or can still be undone. */
    ghost predicate Tracked(before: Tree, recordBefore: RecordFile, newId: nat)
      reads this
    {
      && Valid() && Settled(before, recordBefore, newId)
      && (Pending() ==> original == Identity(before, Venv) && (Venv in before <==> original.Some?))
    }

    /** One recovery, disturbed or not, loses nothing of what is known about the rebuild. */
    method RecoverTracked(confirmed: bool, ghost before: Tree, ghost recordBefore: RecordFile, ghost newId: nat)
      returns (outcome: Outcome)
      requires Tracked(before, recordBefore, newId)
      modifies this
      ensures Tracked(before, recordBefore, newId)
      ensures Pending() && confirmed && old(Calm(3)) ==>
                outcome.Refused? && Unrecorded() && lastChange.Made? && original == Identity(before, Venv)
      ensures old(!Pending()) ==> outcome.Refused? && record == old(record)
    {
      outcome := RecoverInterrupted(confirmed);
    }

    /** A rebuild that may be cut short anywhere, followed by any number of recoveries that may be cut short
        anywhere: the original stays recoverable, and a last undisturbed confirmed recovery settles the matter
        unless the new directory was never recorded, in which case nothing is moved. */
    method RebuildAndRecover(first: Action, attempts: seq<Action>, last: seq<Fate>) returns (outcome: Outcome)
      requires Valid() && !Blocked() && Replaceable()
      requires first.Replace? && first.supported && forall a :: a in attempts ==> a.Recover?
      requires |last| >= 3 && last[0].Done? && last[1].Done? && last[2].Done?
      modifies this
      ensures Valid() && Settled(old(tree), old(record), old(nextId))
      ensures Pending() <==> Unrecorded()
      ensures Pending() ==> outcome.Refused? && lastChange.Made? && original == old(Identity(tree, Venv))
      ensures Undisturbed(first.fates, 7) && first.build.Built? ==> record.Saved? && record.record.status.Completed?
    {
      fates := first.fates;
      outcome := ReplaceEnvironment(first.supported, first.build, first.recognized);
      for i := 0 to |attempts|
        invariant Tracked(old(tree), old(record), old(nextId))
        invariant Undisturbed(first.fates, 7) && first.build.Built? ==> record.Saved? && record.record.status.Completed?
      {
        fates := attempts[i].fates;
        outcome := RecoverTracked(attempts[i].confirmed, old(tree), old(record), old(nextId));
      }
      fates := last;
      outcome := RecoverTracked(true, old(tree), old(record), old(nextId));
    }
  }
}
