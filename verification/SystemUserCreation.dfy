/** Creating an OS account: a saga of commands run inside one transaction, each
    followed by the registration of the command that undoes it. */
module SystemUserCreation {
  import opened Text
  import opened NumberTexts
  import opened Rollback
  import opened TransactionHistory
  import opened TransactionManager

  const MIN_UID := 1000
  const MAX_UID := 60000

  // ------------------------------------------------------------------ next UID

  /** The third field of a passwd line. */
  function UidOf(line: string): Option<int> {
    var parts := Split(line, ':');
    if |parts| >= 3 then ParseInt(parts[2]) else None
  }

  function ParsedUids(lines: seq<string>): seq<Option<int>> {
    seq(|lines|, (i: nat) requires i < |lines| => UidOf(lines[i]))
  }

  predicate UsesUid(uids: seq<Option<int>>, uid: int) { Some(uid) in uids }

  /** The highest in-range UID in use; `MIN_UID - 1` when there is none. */
  method HighestUid(uids: seq<Option<int>>) returns (highest: int)
    ensures MIN_UID - 1 <= highest <= MAX_UID
    ensures highest >= MIN_UID ==> UsesUid(uids, highest)
    ensures forall u :: UsesUid(uids, u) && MIN_UID <= u <= MAX_UID ==> u <= highest
  {
    highest := MIN_UID - 1;
    for k := 0 to |uids|
      invariant MIN_UID - 1 <= highest <= MAX_UID
      invariant highest >= MIN_UID ==> Some(highest) in uids[..k]
      invariant forall u :: Some(u) in uids[..k] && MIN_UID <= u <= MAX_UID ==> u <= highest
    {
      assert uids[..k + 1] == uids[..k] + [uids[k]];
      if uids[k].Some? && uids[k].value >= MIN_UID && uids[k].value <= MAX_UID && uids[k].value > highest {
        highest := uids[k].value;
      }
    }
    assert uids[..|uids|] == uids;
  }

  predicate NoUidLeft(maxDbUid: nat, getentOk: bool, lines: seq<string>) {
    maxDbUid >= 60000 || (getentOk && UsesUid(ParsedUids(lines), 60000))
  }

  /** One above every UID of the database and every in-range UID of the system:
      a free UID, and none exactly when that would leave the range. */
  method FindNextAvailableUid(maxDbUid: nat, getentOk: bool, lines: seq<string>) returns (uid: Option<nat>)
    ensures uid.Some? ==> 1000 <= uid.value <= 60000 && maxDbUid < uid.value
    ensures uid.Some? && getentOk ==> !UsesUid(ParsedUids(lines), uid.value)
    ensures uid.Some? ==> uid.value == 1000 || uid.value - 1 == maxDbUid
                          || (getentOk && UsesUid(ParsedUids(lines), uid.value - 1))
    ensures uid.None? <==> NoUidLeft(maxDbUid, getentOk, lines)
  {
    var maxDb := if maxDbUid == 0 then MIN_UID - 1 else maxDbUid;
    var maxSystemUid := MIN_UID - 1;
    if getentOk {
      maxSystemUid := HighestUid(ParsedUids(lines));
    }
    var next := (if maxDb > maxSystemUid then maxDb else maxSystemUid) + 1;
    if next > MAX_UID { return None; }
    uid := Some(next);
  }

  // ------------------------------------------------------------------ commands

  function HomeDir(username: string): Path { "/home/" + username }

  function Directories(username: string): seq<Path> {
    var home := HomeDir(username);
    [home + "/public_html", home + "/logs", home + "/tmp", home + "/ssl", home + "/.ssh"]
  }

  predicate Under(dir: Path, p: Path) { p == dir || StartsWith(p, dir + "/") }

  function RemoveTree(files: map<Path, Node>, dir: Path): map<Path, Node> {
    map p | p in files && !Under(dir, p) :: files[p]
  }

  /** `useradd -m`: refuses an existing name; copies the skeleton only into a new home. */
  function UserAdd(w: World, name: string, uid: nat, shell: string, skeleton: map<Path, Node>): World {
    var home := HomeDir(name);
    var copied := map p | p in skeleton && Under(home, p) :: skeleton[p];
    w.(accounts := w.accounts[name := Account(uid, shell, None)],
       files := if home in w.files then w.files else (w.files + copied)[home := Directory])
  }

  /** `userdel -r -f`; a failing command only returns `success: false`, it never throws. */
  function UserDel(w: World, name: string, works: bool): Outcome {
    if !works then Outcome(w, false)
    else
      Outcome(w.(accounts := map n | n in w.accounts && n != name :: w.accounts[n],
                 files := RemoveTree(w.files, HomeDir(name))), false)
  }

  function UndoUserAdd(name: string, works: bool): World -> Outcome {
    (w: World) => UserDel(w, name, works)
  }

  /** `rm -rf dir`. */
  function UndoMkdir(dir: Path, works: bool): World -> Outcome {
    (w: World) => Outcome(if works then w.(files := RemoveTree(w.files, dir)) else w, false)
  }

  /** `useradd` adds the account; where the home is there already no file changes, otherwise it is
      made, with the skeleton in it. */
  lemma UserAddExact(w: World, name: string, uid: nat, shell: string, skeleton: map<Path, Node>, p: Path)
    ensures var n, home := UserAdd(w, name, uid, shell, skeleton), "/home/" + name;
            && n.accounts == w.accounts[name := Account(uid, shell, None)] && n.quotas == w.quotas
            && Lookup(n.files, p)
               == (if home in w.files then Lookup(w.files, p)
                   else if p == home then Some(Directory)
                   else if StartsWith(p, home + "/") && p in skeleton then Some(skeleton[p])
                   else Lookup(w.files, p))
  {}

  /** The undo commands: a working `rm` or `userdel` takes the whole tree and nothing else of the
      files, `userdel` the account as well, and neither ever throws. */
  lemma UndoCommands(w: World, name: string, dir: Path, works: bool, p: Path)
    ensures var o := UndoMkdir(dir, works)(w);
            && !o.threw && o.world.accounts == w.accounts && o.world.quotas == w.quotas
            && Lookup(o.world.files, p)
               == if works && (p == dir || StartsWith(p, dir + "/")) then None else Lookup(w.files, p)
    ensures var o, home := UserDel(w, name, works), "/home/" + name;
            && !o.threw && o.world.quotas == w.quotas
            && Lookup(o.world.files, p)
               == (if works && (p == home || StartsWith(p, home + "/")) then None else Lookup(w.files, p))
            && o.world.accounts == if works then (map n | n in w.accounts && n != name :: w.accounts[n]) else w.accounts
  {}

  /** A passwd line: the UID is the third field, whatever follows. */
  lemma UidOfLine(user: string, pw: string, uid: nat, rest: string)
    requires ':' !in user && ':' !in pw
    ensures UidOf(user + (":" + (pw + (":" + ToDecimal(uid))))) == Some(uid)
    ensures UidOf(user + (":" + (pw + (":" + (ToDecimal(uid) + (":" + rest)))))) == Some(uid)
    ensures UidOf(user + (":" + pw)).None? && UidOf(user).None?
  {
    var d := ToDecimal(uid);
    assert ':' !in d by { assert forall i :: 0 <= i < |d| ==> IsDigit(d[i]); }
    IntegerReads(uid);
    SplitLine(user, pw + (":" + d), ':');
    SplitLine(pw, d, ':');
    SplitWhole(d, ':');
    SplitLine(user, pw + (":" + (d + (":" + rest))), ':');
    SplitLine(pw, d + (":" + rest), ':');
    SplitLine(d, rest, ':');
    SplitLine(user, pw, ':');
    SplitWhole(pw, ':');
    SplitWhole(user, ':');
  }

  // --------------------------------------------------- what the rollback gives back

  /** Only the account, the quota and the home tree of `name` may differ. */
  ghost predicate Confined(before: World, after: World, name: string) {
    && (forall n :: n != name ==> (n in before.accounts <==> n in after.accounts)
                                  && (n in before.accounts ==> after.accounts[n] == before.accounts[n]))
    && (forall n :: n != name ==> (n in before.quotas <==> n in after.quotas)
                                  && (n in before.quotas ==> after.quotas[n] == before.quotas[n]))
    && (forall p :: !Under(HomeDir(name), p) ==> Lookup(after.files, p) == Lookup(before.files, p))
  }

  /** The actions registered after `useradd`: removals inside the home. */
  ghost predicate RemovesInHome(u: Undo, name: string) {
    && u.Custom?
    && forall w: World :: Confined(w, u.effect(w).world, name)
                          && u.effect(w).world.accounts == w.accounts && u.effect(w).world.quotas == w.quotas
  }

  lemma MkdirUndoInHome(name: string, dir: Path, works: bool)
    requires StartsWith(dir, HomeDir(name) + "/")
    ensures RemovesInHome(Custom(UndoMkdir(dir, works)), name)
  {
    var home := HomeDir(name);
    forall p | Under(dir, p) ensures Under(home, p) {
      assert home + "/" <= dir && dir <= p;
    }
  }

  /** The undo of `useradd` first, then removals inside the home only. */
  ghost predicate SagaLog(us: seq<Undo>, name: string, works: bool) {
    && us != []
    && if |us| == 1 then us[0] == Custom(UndoUserAdd(name, works))
       else RemovesInHome(us[|us| - 1], name) && SagaLog(us[..|us| - 1], name, works)
  }

  /** Whatever the saga did inside the home, its undo actions remove the account and
      the home tree, and leave only the quota behind. */
  lemma {:induction false} SagaUndone(before: World, w: World, name: string, us: seq<Undo>, fails: nat -> bool)
    requires SagaLog(us, name, true)
    requires Confined(before, w, name) && name !in before.accounts
    ensures var after := RunUndos(w, us, fails).world;
            && after.accounts == before.accounts
            && after.files == RemoveTree(before.files, HomeDir(name))
            && after.quotas == w.quotas
    decreases |us|
  {
    var last := |us| - 1;
    var o := RunUndo(w, us[last], fails(last));
    if last == 0 {
      assert us[..0] == [];
      assert RunUndos(w, us, fails).world == o.world;
      assert forall p :: p in o.world.files <==> p in before.files && !Under(HomeDir(name), p) by {
        forall p ensures p in o.world.files <==> p in before.files && !Under(HomeDir(name), p) {
          if !Under(HomeDir(name), p) { assert Lookup(w.files, p) == Lookup(before.files, p); }
        }
      }
      assert forall p :: p in o.world.files ==> Lookup(w.files, p) == Lookup(before.files, p);
    } else {
      assert RemovesInHome(us[last], name);
      assert Confined(w, o.world, name);
      ConfinedTrans(before, w, o.world, name);
      SagaUndone(before, o.world, name, us[..last], fails);
    }
  }

  /** When the undoing `userdel` fails, nobody notices: the account stays as it was, and only
      the created directories may go. */
  lemma {:induction false} SagaKept(before: World, w: World, name: string, us: seq<Undo>, fails: nat -> bool)
    requires SagaLog(us, name, false) && Confined(before, w, name)
    ensures var after := RunUndos(w, us, fails).world;
            after.accounts == w.accounts && after.quotas == w.quotas && Confined(before, after, name)
    decreases |us|
  {
    var last := |us| - 1;
    var o := RunUndo(w, us[last], fails(last));
    if last == 0 {
      assert us[..0] == [];
      assert RunUndos(w, us, fails).world == o.world;
    } else {
      assert RemovesInHome(us[last], name);
      assert Confined(w, o.world, name);
      ConfinedTrans(before, w, o.world, name);
      SagaKept(before, o.world, name, us[..last], fails);
    }
  }

  lemma ConfinedTrans(a: World, b: World, c: World, name: string)
    requires Confined(a, b, name) && Confined(b, c, name)
    ensures Confined(a, c, name)
  {}

  /** So the directories come back as they were exactly when there was no home yet. */
  lemma HomeRestoredIff(files: map<Path, Node>, name: string)
    ensures RemoveTree(files, HomeDir(name)) == files <==> forall p :: p in files ==> !Under(HomeDir(name), p)
  {
    var kept := RemoveTree(files, HomeDir(name));
    if kept == files {
      assert forall p :: p in files ==> p in kept;
    }
  }

  /** A transaction somewhere between `useradd` and its end. */
  ghost predicate Saga(before: World, w: World, tx: TxState, name: string, works: bool) {
    && !tx.committed && tx.snapshots == [] && SagaLog(tx.actions, name, works)
    && Confined(before, w, name)
    && name in w.accounts
  }

  predicate NothingRecorded(tx: TxState) { tx.actions == [] && tx.snapshots == [] && !tx.committed }

  function WithEntry(w: World, p: Path, n: Node): World { w.(files := w.files[p := n]) }

  lemma SagaWrites(before: World, w: World, tx: TxState, name: string, works: bool, p: Path, n: Node)
    requires Saga(before, w, tx, name, works) && StartsWith(p, HomeDir(name) + "/")
    ensures Saga(before, WithEntry(w, p, n), tx, name, works)
  {}

  lemma SagaRegisters(before: World, w: World, tx: TxState, name: string, works: bool, dir: Path, rmWorks: bool)
    requires Saga(before, w, tx, name, works) && StartsWith(dir, HomeDir(name) + "/")
    ensures Saga(before, w, tx.(actions := tx.actions + [Custom(UndoMkdir(dir, rmWorks))]), name, works)
  {
    MkdirUndoInHome(name, dir, rmWorks);
    var more := tx.actions + [Custom(UndoMkdir(dir, rmWorks))];
    assert more[..|tx.actions|] == tx.actions;
  }

  lemma FurnishedBy(files: map<Path, Node>, name: string, indexOk: bool)
    requires forall k :: 0 <= k < |Directories(name)| ==> Directories(name)[k] in files
    requires indexOk ==> Lookup(files, Directories(name)[0] + "/index.html") == Some(Regular("Account: " + name))
    ensures Furnished(files, name, indexOk)
  {
    var dirs, home := Directories(name), "/home/" + name;
    assert dirs[0] == home + "/public_html" && dirs[1] == home + "/logs" && dirs[2] == home + "/tmp";
    assert dirs[3] == home + "/ssl" && dirs[4] == home + "/.ssh";
  }

  lemma DirectoriesInHome(name: string)
    ensures |Directories(name)| == 5
    ensures forall k :: 0 <= k < 5 ==> StartsWith(Directories(name)[k], HomeDir(name) + "/")
    ensures StartsWith(Directories(name)[0] + "/index.html", HomeDir(name) + "/")
  {}

  // ---------------------------------------------------------------- the service

  datatype Dto = Dto(username: string, shell: Option<string>, password: Option<string>,
                     diskQuotaMb: nat, sftpOnly: bool)

  datatype Row = Row(username: string, uid: nat, shell: string)

  /** What the outside world answers during one `create`. */
  datatype Io = Io(idWorks: bool, maxDbUid: nat, getentOk: bool, passwd: seq<string>,
                   useraddOk: bool, skeleton: map<Path, Node>, chpasswdOk: bool, mkdirOk: nat -> bool,
                   indexOk: bool, quotaOk: bool, usermodOk: bool, saveOk: bool, auditOk: bool,
                   userdelWorks: bool, rmWorks: nat -> bool)

  /** An empty string counts as not given. */
  predicate Given(s: Option<string>) { s.GetOr("") != "" }

  lemma GivenTexts(s: string)
    ensures !Given(None) && !Given(Some("")) && Given(Some("/bin/sh")) && (s != "" ==> Given(Some(s)))
  {}

  /** All commands that can stop the saga between `useradd` and the row work. */
  ghost predicate SetUpWorks(dto: Dto, io: Io) {
    (Given(dto.password) ==> io.chpasswdOk) && forall k: nat :: k < 5 ==> io.mkdirOk(k)
  }

  /** What a user created in full finds: the five directories in the home and, if it could be
      written, the start page. */
  ghost predicate Furnished(files: map<Path, Node>, name: string, indexOk: bool) {
    && "/home/" + name + "/public_html" in files && "/home/" + name + "/logs" in files
    && "/home/" + name + "/tmp" in files && "/home/" + name + "/ssl" in files && "/home/" + name + "/.ssh" in files
    && (indexOk ==> Lookup(files, "/home/" + name + "/public_html" + "/index.html")
                    == Some(Regular("Account: " + name)))
  }

  /** The quotas once the saga has got past its directories, or not. */
  function QuotasWhen(quotas: map<string, nat>, dto: Dto, io: Io, setUp: bool): map<string, nat> {
    if setUp && dto.diskQuotaMb > 0 && io.quotaOk then quotas[dto.username := dto.diskQuotaMb * 1024] else quotas
  }

  /** Where a failing `create` threw. */
  datatype Stage = NoUid | UserAddFailed | AfterUserAdd | AfterSave

  /** How far the commands got: nothing done, some done, all done. */
  datatype Provisioned = Refused(stage: Stage) | HalfDone | Ready(row: Row)

  datatype Result = Created(row: Row) | Conflict | Failed(stage: Stage)

  class SystemUsersService {
    const manager: TransactionManagerService
    var rows: map<string, Row>

    constructor (manager: TransactionManagerService)
      ensures this.manager == manager && rows == map[]
    {
      this.manager, rows := manager, map[];
    }

    ghost predicate InProgress(id: TxId, before: World, name: string, works: bool)
      reads manager, manager.activeTransactions.Values
    {
      manager.Valid() && id in manager.activeTransactions
      && Saga(before, manager.world, manager.activeTransactions[id].State(), name, works)
    }

    method MakeDirectory(name: string, id: TxId, dir: Path, rmWorks: bool, ghost before: World, ghost works: bool)
      requires InProgress(id, before, name, works) && StartsWith(dir, HomeDir(name) + "/")
      modifies manager`world, manager.activeTransactions[id]
      ensures InProgress(id, before, name, works)
      ensures manager.world == if dir in old(manager.world.files) then old(manager.world)
                               else WithEntry(old(manager.world), dir, Directory)
      ensures manager.activeTransactions == old(manager.activeTransactions)
    {
      ghost var tx := manager.activeTransactions[id].State();
      SagaWrites(before, manager.world, tx, name, works, dir, Directory);
      if dir !in manager.world.files {
        manager.world := WithEntry(manager.world, dir, Directory);
      }
      SagaRegisters(before, manager.world, tx, name, works, dir, rmWorks);
      var s := manager.AddRollbackAction(id, Custom(UndoMkdir(dir, rmWorks)));
    }

    /** `mkdir -p` of each directory in turn, stopping at the first failure. */
    method MakeDirectories(name: string, id: TxId, dirs: seq<Path>, mkdirOk: nat -> bool, rmWorks: nat -> bool,
                           ghost before: World, ghost works: bool)
      returns (ok: bool)
      requires InProgress(id, before, name, works)
      requires forall k :: 0 <= k < |dirs| ==> StartsWith(dirs[k], HomeDir(name) + "/")
      modifies manager`world, manager.activeTransactions[id]
      ensures InProgress(id, before, name, works)
      ensures manager.world.quotas == old(manager.world.quotas)
      ensures manager.world.accounts == old(manager.world.accounts)
      ensures manager.activeTransactions == old(manager.activeTransactions)
      ensures ok <==> forall k: nat :: k < |dirs| ==> mkdirOk(k)
      ensures ok ==> forall k :: 0 <= k < |dirs| ==> dirs[k] in manager.world.files
    {
      for k := 0 to |dirs|
        invariant InProgress(id, before, name, works)
        invariant manager.world.quotas == old(manager.world.quotas)
        invariant manager.world.accounts == old(manager.world.accounts)
        invariant forall j: nat :: j < k ==> mkdirOk(j)
        invariant forall j :: 0 <= j < k ==> dirs[j] in manager.world.files
      {
        if !mkdirOk(k) { return false; }
        MakeDirectory(name, id, dirs[k], rmWorks(k), before, works);
      }
      ok := true;
    }

    /** The five directories, each registered for removal, and the start page. */
    method CreateDirectoryStructure(name: string, id: TxId, io: Io, ghost before: World) returns (ok: bool)
      requires InProgress(id, before, name, io.userdelWorks)
      modifies manager`world, manager.activeTransactions[id]
      ensures InProgress(id, before, name, io.userdelWorks)
      ensures manager.world.quotas == old(manager.world.quotas)
      ensures manager.world.accounts == old(manager.world.accounts)
      ensures manager.activeTransactions == old(manager.activeTransactions)
      ensures ok <==> forall k: nat :: k < 5 ==> io.mkdirOk(k)
      ensures ok ==> Furnished(manager.world.files, name, io.indexOk)
    {
      DirectoriesInHome(name);
      var dirs := Directories(name);
      ok := MakeDirectories(name, id, dirs, io.mkdirOk, io.rmWorks, before, io.userdelWorks);
      if ok && io.indexOk {
        WriteIndex(name, id, dirs[0] + "/index.html", before, io.userdelWorks);
      }
      if ok { FurnishedBy(manager.world.files, name, io.indexOk); }
    }

    /** `tee`; when it fails the caller only logs a warning. */
    method WriteIndex(name: string, id: TxId, index: Path, ghost before: World, ghost works: bool)
      requires InProgress(id, before, name, works) && StartsWith(index, HomeDir(name) + "/")
      modifies manager`world
      ensures InProgress(id, before, name, works)
      ensures manager.world == WithEntry(old(manager.world), index, Regular("Account: " + name))
    {
      SagaWrites(before, manager.world, manager.activeTransactions[id].State(), name, works, index,
                 Regular("Account: " + name));
      manager.world := WithEntry(manager.world, index, Regular("Account: " + name));
    }

    method SetPassword(dto: Dto, id: TxId, io: Io, ghost before: World) returns (ok: bool)
      requires InProgress(id, before, dto.username, io.userdelWorks)
      modifies manager`world
      ensures InProgress(id, before, dto.username, io.userdelWorks)
      ensures ok <==> (Given(dto.password) ==> io.chpasswdOk)
      ensures manager.world.files == old(manager.world.files) && manager.world.quotas == old(manager.world.quotas)
      ensures var a := old(manager.world.accounts[dto.username]);
              manager.world.accounts[dto.username]
              == if Given(dto.password) && io.chpasswdOk then a.(password := dto.password) else a
    {
      var name := dto.username;
      ok := Given(dto.password) ==> io.chpasswdOk;
      if Given(dto.password) && ok {
        ChangeAccount(id, name, manager.world.accounts[name].(password := dto.password), before, io.userdelWorks);
      }
    }

    /** `setquota` and, for SFTP-only users, the login shell; failures are only logged. */
    method SetLimits(dto: Dto, id: TxId, io: Io, ghost before: World)
      requires InProgress(id, before, dto.username, io.userdelWorks)
      modifies manager`world
      ensures InProgress(id, before, dto.username, io.userdelWorks)
      ensures manager.world.files == old(manager.world.files)
      ensures var a := old(manager.world.accounts[dto.username]);
              manager.world.accounts[dto.username]
              == if dto.sftpOnly && io.usermodOk then a.(shell := "/usr/sbin/nologin") else a
      ensures manager.world.quotas == QuotasWhen(old(manager.world.quotas), dto, io, true)
    {
      var name := dto.username;
      if dto.diskQuotaMb > 0 && io.quotaOk {
        manager.world := manager.world.(quotas := manager.world.quotas[name := dto.diskQuotaMb * 1024]);
      }
      if dto.sftpOnly && io.usermodOk {
        ChangeAccount(id, name, manager.world.accounts[name].(shell := NOLOGIN), before, io.userdelWorks);
      }
    }

    method SetUp(dto: Dto, id: TxId, io: Io, ghost before: World) returns (ok: bool)
      requires InProgress(id, before, dto.username, io.userdelWorks)
      modifies manager`world, manager.activeTransactions[id]
      ensures InProgress(id, before, dto.username, io.userdelWorks)
      ensures manager.activeTransactions == old(manager.activeTransactions)
      ensures ok <==> SetUpWorks(dto, io)
      ensures ok ==> Furnished(manager.world.files, dto.username, io.indexOk)
      ensures var a := old(manager.world.accounts[dto.username]);
              ok ==> manager.world.accounts[dto.username]
                     == Account(a.uid, if dto.sftpOnly && io.usermodOk then "/usr/sbin/nologin" else a.shell,
                                if Given(dto.password) then dto.password else a.password)
      ensures manager.world.quotas == QuotasWhen(old(manager.world.quotas), dto, io, ok)
    {
      ok := SetPassword(dto, id, io, before);
      if !ok { return; }
      ok := CreateDirectoryStructure(dto.username, id, io, before);
      if !ok { return; }
      SetLimits(dto, id, io, before);
    }

    static const NOLOGIN := "/usr/sbin/nologin"

    method ChangeAccount(id: TxId, name: string, a: Account, ghost before: World, ghost works: bool)
      requires InProgress(id, before, name, works)
      modifies manager`world
      ensures InProgress(id, before, name, works)
      ensures manager.world == old(manager.world).(accounts := old(manager.world).accounts[name := a])
    {
      manager.world := manager.world.(accounts := manager.world.accounts[name := a]);
    }

    /** `useradd`, and at once the registration of its undo. */
    method AddUser(name: string, id: TxId, uid: nat, shell: string, io: Io) returns (ok: bool)
      requires manager.Valid() && id in manager.activeTransactions
      requires NothingRecorded(manager.activeTransactions[id].State())
      modifies manager`world, manager.activeTransactions[id]
      ensures ok <==> io.useraddOk && name !in old(manager.world.accounts)
      ensures ok ==> InProgress(id, old(manager.world), name, io.userdelWorks)
                     && manager.world.accounts[name] == Account(uid, shell, None)
      ensures !ok ==>
                manager.world == old(manager.world) && manager.Valid() && manager.Active() == old(manager.Active())
      ensures manager.world.quotas == old(manager.world.quotas)
      ensures manager.activeTransactions == old(manager.activeTransactions)
    {
      ok := io.useraddOk && name !in manager.world.accounts;
      if !ok { return; }
      manager.world := UserAdd(manager.world, name, uid, shell, io.skeleton);
      var s := manager.AddRollbackAction(id, Custom(UndoUserAdd(name, io.userdelWorks)));
    }

    /** The account and the row of a user created in full. */
    ghost predicate Complete(dto: Dto, io: Io, row: Row)
      reads manager
    {
      && dto.username in manager.world.accounts
      && manager.world.accounts[dto.username]
         == Account(row.uid, if dto.sftpOnly && io.usermodOk then "/usr/sbin/nologin"
                             else if Given(dto.shell) then dto.shell.value else "/bin/bash",
                    if Given(dto.password) then dto.password else None)
      && row.username == dto.username
      && row.shell == (if dto.sftpOnly then "/usr/sbin/nologin"
                       else if Given(dto.shell) then dto.shell.value else "/bin/bash")
      && 1000 <= row.uid <= 60000 && io.maxDbUid < row.uid
      && (io.getentOk ==> !UsesUid(ParsedUids(io.passwd), row.uid))
      && Furnished(manager.world.files, dto.username, io.indexOk)
    }

    /** Everything up to the database row. */
    method Provision(dto: Dto, id: TxId, io: Io) returns (p: Provisioned)
      requires manager.Valid() && id in manager.activeTransactions
      requires NothingRecorded(manager.activeTransactions[id].State())
      modifies manager`world, manager.activeTransactions[id]
      ensures p.Refused? ==>
                manager.world == old(manager.world) && manager.Valid() && manager.Active() == old(manager.Active())
      ensures var taken := dto.username in old(manager.world.accounts);
              if NoUidLeft(io.maxDbUid, io.getentOk, io.passwd) then p == Refused(NoUid)
              else if !io.useraddOk || taken then p == Refused(UserAddFailed)
              else if !SetUpWorks(dto, io) then p == HalfDone
              else p.Ready?
      ensures !p.Refused? ==> InProgress(id, old(manager.world), dto.username, io.userdelWorks)
      ensures p.Ready? ==> Complete(dto, io, p.row)
      ensures manager.world.quotas == QuotasWhen(old(manager.world.quotas), dto, io, p.Ready?)
      ensures manager.activeTransactions == old(manager.activeTransactions)
    {
      var uid := FindNextAvailableUid(io.maxDbUid, io.getentOk, io.passwd);
      if uid.None? { return Refused(NoUid); }
      var shell := if Given(dto.shell) then dto.shell.value else "/bin/bash";
      var added := AddUser(dto.username, id, uid.value, shell, io);
      if !added { return Refused(UserAddFailed); }
      var ok := SetUp(dto, id, io, old(manager.world));
      if !ok { return HalfDone; }
      p := Ready(Row(dto.username, uid.value, if dto.sftpOnly then NOLOGIN else shell));
    }

    /** The whole saga. A failure after `useradd` and before the row is saved takes the
        account and the home tree away again; one after the save does so too, although
        the row stays. Where `userdel` fails the account stays. A quota once set stays. Every
        other transaction is left as it was. */
    method Create(dto: Dto, id: TxId, now: int, io: Io, faults: Faults) returns (r: Result)
      requires manager.Valid() && id !in manager.activeTransactions
      modifies this`rows, manager
      ensures manager.Valid() && manager.Active() == old(manager.Active())
      ensures r.Conflict? <==> dto.username in old(rows) || (io.idWorks && dto.username in old(manager.world.accounts))
      ensures r.Conflict? ==> manager.world == old(manager.world) && rows == old(rows)
      ensures !r.Conflict? ==>
                Ended(dto, io, r, old(manager.world), old(rows))
    {
      var taken := dto.username in rows || (io.idWorks && dto.username in manager.world.accounts);
      if taken { return Conflict; }
      r := CreateInTransaction(dto, id, now, io, faults);
    }

    /** How a creation that was not refused for its name ends, and what it leaves behind. */
    ghost predicate Ended(dto: Dto, io: Io, r: Result, before: World, rowsBefore: map<string, Row>)
      reads this, manager
    {
      var name, after := dto.username, manager.world;
      && (if NoUidLeft(io.maxDbUid, io.getentOk, io.passwd) then r == Failed(NoUid)
          else if !io.useraddOk || name in before.accounts then r == Failed(UserAddFailed)
          else if !SetUpWorks(dto, io) || !io.saveOk then r == Failed(AfterUserAdd)
          else if !io.auditOk then r == Failed(AfterSave)
          else r.Created?)
      && (r.Created? ==> rows == rowsBefore[name := r.row] && Complete(dto, io, r.row) && Confined(before, after, name))
      && (r == Failed(NoUid) || r == Failed(UserAddFailed) ==> after == before && rows == rowsBefore)
      && (r == Failed(AfterUserAdd) || r == Failed(AfterSave) ==>
            (io.userdelWorks ==> after.accounts == before.accounts
                                 && after.files == RemoveTree(before.files, "/home/" + name))
            && (!io.userdelWorks ==> name in after.accounts && Confined(before, after, name)))
      && (r.Created? || r == Failed(AfterUserAdd) || r == Failed(AfterSave) ==>
            after.quotas == if SetUpWorks(dto, io) && dto.diskQuotaMb > 0 && io.quotaOk
                            then before.quotas[name := dto.diskQuotaMb * 1024] else before.quotas)
      && (r == Failed(AfterUserAdd) ==> rows == rowsBefore)
      && (r == Failed(AfterSave) ==> name in rows && rows == rowsBefore[name := rows[name]])
    }

    method Begin(id: TxId, now: int)
      requires manager.Valid() && id !in manager.activeTransactions
      modifies manager`activeTransactions
      ensures Untouched(id, old(manager.world)) && fresh(manager.activeTransactions[id])
      ensures Without(manager.Active(), id) == old(manager.Active())
    {
      manager.StartTransaction(id, now);
      assert manager.activeTransactions[id].State() == manager.Active()[id];
    }

    /** `Provision`, with its effect on the other transactions spelled out: none. */
    method ProvisionAlone(dto: Dto, id: TxId, io: Io) returns (p: Provisioned)
      requires Untouched(id, manager.world)
      modifies manager`world, manager.activeTransactions[id]
      ensures p.Refused? ==> Untouched(id, old(manager.world))
      ensures var taken := dto.username in old(manager.world.accounts);
              if NoUidLeft(io.maxDbUid, io.getentOk, io.passwd) then p == Refused(NoUid)
              else if !io.useraddOk || taken then p == Refused(UserAddFailed)
              else if !SetUpWorks(dto, io) then p == HalfDone
              else p.Ready?
      ensures !p.Refused? ==> InProgress(id, old(manager.world), dto.username, io.userdelWorks)
      ensures p.Ready? ==> Complete(dto, io, p.row)
      ensures manager.world.quotas == QuotasWhen(old(manager.world.quotas), dto, io, p.Ready?)
      ensures Without(manager.Active(), id) == Without(old(manager.Active()), id)
    {
      p := Provision(dto, id, io);
      if p.Refused? {
        assert manager.activeTransactions[id].State() == manager.Active()[id];
        assert old(manager.activeTransactions[id].State()) == old(manager.Active())[id];
      }
    }

    method CreateInTransaction(dto: Dto, id: TxId, now: int, io: Io, faults: Faults) returns (r: Result)
      requires manager.Valid() && id !in manager.activeTransactions
      modifies this`rows, manager
      ensures manager.Valid() && manager.Active() == old(manager.Active())
      ensures !r.Conflict?
      ensures Ended(dto, io, r, old(manager.world), old(rows))
    {
      Begin(id, now);
      var p := ProvisionAlone(dto, id, io);
      r := Conclude(dto.username, id, p, io, faults, old(manager.world));
    }

    /** `withTransaction` after the operation: commit, or roll back and rethrow. */
    method Conclude(name: string, id: TxId, p: Provisioned, io: Io, faults: Faults, ghost before: World)
      returns (r: Result)
      requires id in manager.activeTransactions
      requires p.Refused? ==> Untouched(id, before)
      requires !p.Refused? ==> InProgress(id, before, name, io.userdelWorks) && name !in before.accounts
      modifies this`rows, manager, manager.activeTransactions[id]
      ensures manager.Valid() && manager.Active() == Without(old(manager.Active()), id)
      ensures Ending(name, p, io, r)
      ensures r.Created? ==> Confined(before, manager.world, name) && manager.world == old(manager.world)
      ensures p.Refused? ==> manager.world == before
      ensures !p.Refused? && !r.Created? && io.userdelWorks ==>
                manager.world.accounts == before.accounts
                && manager.world.files == RemoveTree(before.files, HomeDir(name))
      ensures !p.Refused? && !r.Created? && !io.userdelWorks ==>
                manager.world.accounts == old(manager.world.accounts) && name in manager.world.accounts
                && Confined(before, manager.world, name)
      ensures manager.world.quotas == old(manager.world.quotas)
      ensures rows == if p.Ready? && io.saveOk then old(rows)[name := p.row] else old(rows)
    {
      if p.Refused? {
        RollBackEmpty(id, faults);
        return Failed(p.stage);
      }
      if p.HalfDone? || !io.saveOk {
        RollBackSaga(id, name, io.userdelWorks, faults, before);
        return Failed(AfterUserAdd);
      }
      rows := rows[name := p.row];
      if !io.auditOk {
        RollBackSaga(id, name, io.userdelWorks, faults, before);
        return Failed(AfterSave);
      }
      CommitEmpty(id);
      r := Created(p.row);
    }

    ghost predicate Ending(name: string, p: Provisioned, io: Io, r: Result) {
      match p
      case Refused(stage) => r == Failed(stage)
      case HalfDone => r == Failed(AfterUserAdd)
      case Ready(row) =>
        r == if !io.saveOk then Failed(AfterUserAdd) else if !io.auditOk then Failed(AfterSave) else Created(row)
    }

    ghost predicate Untouched(id: TxId, before: World)
      reads manager, manager.activeTransactions.Values
    {
      && manager.Valid() && id in manager.activeTransactions && manager.world == before
      && NothingRecorded(manager.activeTransactions[id].State())
    }

    method CommitEmpty(id: TxId)
      requires manager.Valid() && id in manager.activeTransactions
      requires manager.activeTransactions[id].State().snapshots == []
      requires !manager.activeTransactions[id].State().committed
      modifies manager, manager.activeTransactions[id]
      ensures manager.Valid() && manager.world == old(manager.world)
      ensures manager.Active() == Without(old(manager.Active()), id)
    {
      var s := manager.Commit(id, (k: nat) => false);
    }

    method RollBackEmpty(id: TxId, faults: Faults)
      requires manager.Valid() && id in manager.activeTransactions
      requires NothingRecorded(manager.activeTransactions[id].State())
      modifies manager
      ensures manager.Valid() && manager.world == old(manager.world)
      ensures manager.Active() == Without(old(manager.Active()), id)
    {
      var s := manager.RollbackTransaction(id, faults);
    }

    method RollBackSaga(id: TxId, name: string, works: bool, faults: Faults, ghost before: World)
      requires InProgress(id, before, name, works) && name !in before.accounts
      modifies manager
      ensures manager.Valid() && manager.Active() == Without(old(manager.Active()), id)
      ensures works ==> manager.world.accounts == before.accounts
                        && manager.world.files == RemoveTree(before.files, HomeDir(name))
      ensures !works ==> manager.world.accounts == old(manager.world.accounts) && Confined(before, manager.world, name)
      ensures manager.world.quotas == old(manager.world.quotas)
    {
      ghost var tx := manager.activeTransactions[id].State();
      if works {
        SagaUndone(before, manager.world, name, tx.actions, faults.onUndo);
      } else {
        SagaKept(before, manager.world, name, tx.actions, faults.onUndo);
      }
      assert RestoreAll(RunUndos(manager.world, tx.actions, faults.onUndo).world, [], faults.onRestore).world
             == RunUndos(manager.world, tx.actions, faults.onUndo).world;
      var s := manager.RollbackTransaction(id, faults);
    }
  }
}
