/** What each system call returns and changes, in terms of the tables, rights and
    queues a caller sees. */
module HandleCalls {
  import opened Basics
  import opened HandleSpec
  import opened HandleInvariant
  import opened HandleSteps
  import PortSteps

  /** A right a program can ask for: one of the named bits, and not CREATE. */
  predicate Named(r: Right) {
    !r.Reserved? && !r.Create?
  }

  lemma NamedIsAll(r: Right)
    ensures r in ALL <==> Named(r)
  {
    match r
    case Read => case Write => case Wait => case Duplicate => case Transfer =>
    case Destroy => case Create => case Mutate => case Reserved(_) =>
  }

  /** Slot h of p holds a handle. */
  predicate Handle(s: State, p: Pid, h: int) {
    p in s.tables && 0 <= h < 32 && s.tables[p][h].Used?
  }

  predicate HasRoom(s: State, p: Pid) {
    p in s.tables && exists i :: 0 <= i < 32 && s.tables[p][i].Free?
  }

  /** Names, types, owners and queues of all objects are as before. */
  ghost predicate SameObjects(s: State, s': State) {
    s'.objs.Keys == s.objs.Keys && forall x :: x in s.objs ==> SameIdentity(s.objs[x], s'.objs[x])
  }

  /** Every slot but (p, h) is as before. */
  ghost predicate OnlySlot(s: State, s': State, p: Pid, h: int) {
    && s'.tables.Keys == s.tables.Keys
    && forall q, i :: q in s.tables && 0 <= i < 32 && (q, i) != (p, h) ==> s'.tables[q][i] == s.tables[q][i]
  }

  /** p got a handle to o in its first free slot h, and nothing else changed but
      the counts of o. */
  ghost predicate Gains(s: State, s': State, p: Pid, h: int, o: ObjId) {
    && p in s.tables && 0 <= h < 32 && s.tables[p][h].Free? && (forall i :: 0 <= i < h ==> s.tables[p][i].Used?)
    && OnlySlot(s, s', p, h) && Handle(s', p, h) && s'.tables[p][h].obj == o
    && SameObjects(s, s') && s'.ports == s.ports && s'.lost == s.lost
  }

  lemma InstallExactly(s: State, p: Pid, o: ObjId, rights: Rights)
    requires o in s.objs
    ensures var (s', h) := Install(s, p, o, rights);
            && (h >= 0 <==> HasRoom(s, p)) && s'.acts == s.acts
            && (h >= 0 ==> Gains(s, s', p, h, o) && s'.tables[p][h].rights == rights)
            && (h < 0 ==> s' == s && h == if p in s.tables then -EMFILE else -EBADF)
  {
    if p in s.tables {
      var i := FirstFree(s.tables[p], 0);
      if i < NPROC_HANDLES {
        PutShape(s, p, i, o, rights);
        hide Put;
        var s' := Put(s, p, i, o, rights);
        forall x | x in s.objs ensures SameIdentity(s.objs[x], s'.objs[x]) {}
      }
    }
  }

  /** sys_handle_dup: the copy holds a right exactly if it is named, asked for and
      held by the original. */
  lemma DupExactly(s: State, p: Pid, h: int, asked: Rights)
    requires Inv(s)
    ensures var (s', r) := Dup(s, p, h, asked);
            && (r >= 0 <==> Handle(s, p, h) && Duplicate in s.tables[p][h].rights && HasRoom(s, p))
            && (r >= 0 ==> Gains(s, s', p, r, s.tables[p][h].obj) && s'.acts == s.acts
                           && forall x :: x in s'.tables[p][r].rights <==> Named(x) && x in asked && x in s.tables[p][h].rights)
            && (r < 0 ==> s' == s)
            && (r == -EBADF <==> !Handle(s, p, h))
            && (r == -EPERM <==> Handle(s, p, h) && Duplicate !in s.tables[p][h].rights)
            && (r == -EMFILE <==> Handle(s, p, h) && Duplicate in s.tables[p][h].rights && !HasRoom(s, p))
  {
    if Handle(s, p, h) {
      NamedLive(s, p, h);
      hide Inv, Install, Gains;
      var rights := asked * ALL * s.tables[p][h].rights;
      InstallExactly(s, p, s.tables[p][h].obj, rights);
      forall x ensures x in rights <==> Named(x) && x in asked && x in s.tables[p][h].rights {
        NamedIsAll(x);
      }
    }
  }

  /** sys_cap_grant: the same for a copy in another process's table, which needs
      TRANSFER; the errors in the order of the tests. */
  lemma GrantExactly(s: State, p: Pid, target: Pid, v: Verdict, h: int, asked: Rights)
    requires Inv(s)
    ensures var (s', r) := Grant(s, p, target, v, h, asked);
            var shape := p in s.tables && 0 <= h < 32;
            && (r >= 0 <==> v == Found && Handle(s, p, h) && Transfer in s.tables[p][h].rights && HasRoom(s, target))
            && (r >= 0 ==> Gains(s, s', target, r, s.tables[p][h].obj) && s'.acts == s.acts
                           && forall x :: x in s'.tables[target][r].rights <==> Named(x) && x in asked && x in s.tables[p][h].rights)
            && (r < 0 ==> s' == s)
            && (!shape ==> r == -EBADF)
            && (shape && v == Denied ==> r == -EPERM)
            && (shape && v == Missing ==> r == -ESRCH)
            && (shape && v == Found && target !in s.tables ==> r == -ENOMEM)
            && (shape && v == Found && target in s.tables && !Handle(s, p, h) ==> r == -EBADF)
            && (v == Found && target in s.tables && Handle(s, p, h) && Transfer !in s.tables[p][h].rights ==> r == -EPERM)
            && (v == Found && target in s.tables && Handle(s, p, h) && Transfer in s.tables[p][h].rights && !HasRoom(s, target)
                ==> r == -EMFILE)
  {
    if Handle(s, p, h) {
      NamedLive(s, p, h);
      hide Inv, Install, Gains;
      var rights := asked * ALL * s.tables[p][h].rights;
      InstallExactly(s, target, s.tables[p][h].obj, rights);
      forall x ensures x in rights <==> Named(x) && x in asked && x in s.tables[p][h].rights {
        NamedIsAll(x);
      }
    }
  }

  /** sys_handle_close: exactly that slot becomes free, and the caller has the
      object to free if and only if it held the last reference. */
  lemma CloseExactly(s: State, p: Pid, h: int)
    requires Inv(s) && ActOf(s, p).Idle?
    ensures var (s', r) := Close(s, p, h);
            && r == (if Handle(s, p, h) then 0 else -EBADF)
            && (r < 0 ==> s' == s)
            && (r == 0 ==>
                  var o := s.tables[p][h].obj;
                  && OnlySlot(s, s', p, h) && s'.tables[p][h].Free? && SameObjects(s, s') && s'.lost == s.lost
                  && o in s.objs && s'.acts == if s.objs[o].refcount == 1 then s.acts[p := Freeing(o)] else s.acts)
  {
    if Handle(s, p, h) {
      hide Inv, Drop, SameObjects, OnlySlot;
      NamedLive(s, p, h);
      DropExactly(s, p, h);
      MoveSame(s, Drop(s, p, h), p, h, Freeing(s.tables[p][h].obj));
    }
  }

  lemma DropExactly(s: State, p: Pid, h: nat)
    requires h < 32 && p in s.tables && s.tables[p][h].Used? && s.tables[p][h].obj in s.objs
    ensures var s', o := Drop(s, p, h), s.tables[p][h].obj;
            && OnlySlot(s, s', p, h) && s'.tables[p][h].Free? && SameObjects(s, s')
            && s'.lost == s.lost && s'.acts == s.acts && s'.objs[o].refcount == s.objs[o].refcount - 1
  {
    var s1, o := SetSlot(s, p, h, Free), s.tables[p][h].obj;
    ForgetShape(s1, o, s.tables[p][h].rights);
    hide Forget;
    var s' := Drop(s, p, h);
    forall x | x in s.objs ensures SameIdentity(s.objs[x], s'.objs[x]) {}
  }

  lemma SameTwice(s: State, s1: State, s2: State)
    requires SameObjects(s, s1) && SameObjects(s1, s2)
    ensures SameObjects(s, s2)
  {
    forall x | x in s.objs ensures SameIdentity(s.objs[x], s2.objs[x]) {
      assert SameIdentity(s.objs[x], s1.objs[x]) && SameIdentity(s1.objs[x], s2.objs[x]);
    }
  }

  lemma MoveSame(s: State, s': State, p: Pid, h: int, a: Act)
    requires SameObjects(s, s') && OnlySlot(s, s', p, h)
    ensures SameObjects(s, SetAct(s', p, a)) && OnlySlot(s, SetAct(s', p, a), p, h)
  {
  }

  lemma GainsMove(s: State, s': State, p: Pid, h: int, o: ObjId, a: Act)
    requires Gains(s, s', p, h, o)
    ensures Gains(s, SetAct(s', p, a), p, h, o)
  {
    MoveSame(s, s', p, h, a);
    hide SameObjects, OnlySlot;
  }

  /** pin_handle: exactly with the rights that were asked for. */
  lemma PinExactly(s: State, p: Pid, h: int, need: Rights)
    requires Inv(s)
    ensures var (s', r) := Pin(s, p, h, need);
            && (r == 0 <==> Handle(s, p, h) && need <= s.tables[p][h].rights)
            && (r == -EBADF <==> !Handle(s, p, h))
            && (r == -EPERM <==> Handle(s, p, h) && !(need <= s.tables[p][h].rights))
            && (r != 0 ==> s' == s)
            && (r == 0 ==>
                  var o := s.tables[p][h].obj;
                  && s'.acts == s.acts[p := Pinned(o, need)] && s'.tables == s.tables && s'.ports == s.ports
                  && s'.lost == s.lost && SameObjects(s, s')
                  && o in s.objs && s'.objs[o] == s.objs[o].(refcount := s.objs[o].refcount + 1)
                  && forall x :: x in s.objs && x != o ==> s'.objs[x] == s.objs[x])
  {
    if Handle(s, p, h) {
      NamedLive(s, p, h);
      hide Inv;
    }
  }

  /** obj_unref: the pin is gone, and the caller has the object to free if and
      only if it was the last reference. */
  lemma UnpinExactly(s: State, p: Pid)
    requires Inv(s) && ActOf(s, p).Pinned?
    ensures var s', o := Unpin(s, p), s.acts[p].obj;
            && s'.tables == s.tables && s'.ports == s.ports && s'.lost == s.lost && SameObjects(s, s')
            && o in s.objs && s'.objs[o].refcount == s.objs[o].refcount - 1
            && s'.acts == s.acts[p := if s.objs[o].refcount == 1 then Freeing(o) else Idle]
  {
    PinLive(s, p);
    hide Inv;
  }

  /** The creation of a file, process, key or window: one handle with the named
      rights asked for, or the object goes back to be freed. */
  lemma InstallNewExactly(s: State, p: Pid, asked: Rights)
    requires Inv(s) && ActOf(s, p).Creating?
    ensures var (s', r) := InstallNew(s, p, asked);
            var o := s.acts[p].obj;
            && (r >= 0 <==> HasRoom(s, p))
            && (r >= 0 ==> Gains(s, s', p, r, o) && s'.acts == s.acts[p := Idle]
                           && forall x :: x in s'.tables[p][r].rights <==> Named(x) && x in asked)
            && (r < 0 ==> s' == s.(acts := s.acts[p := Freeing(o)]))
  {
    hide Inv, Install, Gains;
    OwnedHasNoRef(s, p);
    var o := s.acts[p].obj;
    InstallExactly(s, p, o, asked * ALL);
    var (s1, h) := Install(s, p, o, asked * ALL);
    if h >= 0 {
      GainsMove(s, s1, p, h, o, Idle);
    }
    forall x ensures x in asked * ALL <==> Named(x) && x in asked {
      NamedIsAll(x);
    }
  }

  /** sys_pipe: the first two free slots hold the read end and the write end. */
  lemma InstallPipeExactly(s: State, p: Pid)
    requires Inv(s) && ActOf(s, p).Creating?
    ensures var (s', rfd, wfd) := InstallPipe(s, p);
            var o := s.acts[p].obj;
            && (rfd >= 0 <==> HasRoom(s, p))
            && (rfd < 0 ==> wfd == rfd && s' == s.(acts := s.acts[p := Freeing(o)]))
            && (rfd >= 0 ==> s'.acts == s.acts[p := Idle] && rfd < 32 && p in s'.tables && s.tables[p][rfd].Free?
                             && s'.tables[p][rfd] == Used(o, {Read, Transfer, Duplicate})
                             && (forall i :: 0 <= i < rfd ==> s.tables[p][i].Used?))
            && (wfd >= 0 ==> rfd >= 0 && rfd < wfd < 32 && s'.tables[p][wfd] == Used(o, {Write, Transfer, Duplicate})
                             && forall i :: rfd < i < wfd ==> s.tables[p][i].Used?)
            && (rfd >= 0 && wfd < 0 ==> wfd == -EMFILE && forall i :: rfd < i < 32 ==> s.tables[p][i].Used?)
            && SameObjects(s, s')
  {
    hide Inv, Install, Gains, SameObjects;
    OwnedHasNoRef(s, p);
    var o := s.acts[p].obj;
    InstallExactly(s, p, o, PIPE_READ_END);
    var (s1, rfd) := Install(s, p, o, PIPE_READ_END);
    SameSelf(s);
    if rfd >= 0 {
      GainsIn(s, s1, p, rfd, o);
      SameKeys(s, s1);
      InstallExactly(s1, p, o, PIPE_WRITE_END);
      var (s2, wfd) := Install(s1, p, o, PIPE_WRITE_END);
      if wfd >= 0 {
        GainsIn(s1, s2, p, wfd, o);
        SameTwice(s, s1, s2);
        ObjectsMove(s, s2, p, Idle);
      } else {
        ObjectsMove(s, s1, p, Idle);
        assert forall i :: 0 <= i < 32 ==> s1.tables[p][i].Used?;
      }
    } else {
      ObjectsMove(s, s, p, Freeing(o));
    }
  }

  /** What a gained handle means for the table it is in. */
  lemma GainsIn(s: State, s': State, p: Pid, h: int, o: ObjId)
    requires Gains(s, s', p, h, o)
    ensures p in s.tables && p in s'.tables && 0 <= h < 32 && s.tables[p][h].Free? && s'.tables[p][h].Used? && s'.tables[p][h].obj == o
    ensures forall i :: 0 <= i < h ==> s.tables[p][i].Used?
    ensures forall i :: 0 <= i < 32 && i != h ==> s'.tables[p][i] == s.tables[p][i]
    ensures SameObjects(s, s')
  {
  }

  lemma SameSelf(s: State)
    ensures SameObjects(s, s)
  {
  }

  lemma SameKeys(s: State, s': State)
    requires SameObjects(s, s')
    ensures s'.objs.Keys == s.objs.Keys
  {
  }

  lemma ObjectsMove(s: State, s': State, p: Pid, a: Act)
    requires SameObjects(s, s')
    ensures SameObjects(s, SetAct(s', p, a))
  {
  }

  // ----- named ports ---------------------------------------------------------------------------

  /** Entry i carries the name. */
  predicate Carries(s: State, i: int, name: string) {
    0 <= i < 16 && s.ports[i].Some? && s.ports[i].value in s.objs && s.objs[s.ports[i].value].name == name
  }

  predicate Taken(s: State, name: string) {
    exists i :: 0 <= i < 16 && Carries(s, i, name)
  }

  lemma FindExactly(s: State, name: string)
    requires Inv(s)
    ensures var i := PortFind(s, name, 0);
            && (i < 16 <==> Taken(s, name))
            && (i < 16 ==> Carries(s, i, name) && forall j :: 0 <= j < i ==> !Carries(s, j, name))
  {
    forall j: nat | j < PORT_TABLE_MAX ensures Published(s, j, name) <==> Carries(s, j, name) {
      if s.ports[j].Some? {
        PortSteps.PublishedLive(s, j);
      }
    }
    hide Inv, PortFind;
    var i := PortFind(s, name, 0);
    if i < 16 {
      assert Carries(s, i, name);
    } else {
      assert forall j: nat :: j < 16 ==> !Published(s, j, name);
    }
  }

  /** A named acquisition without READ: a handle to the port that carries the name,
      with the named rights asked for. */
  lemma LookupSends(s: State, p: Pid, path: string, asked: Rights)
    requires Inv(s) && ActOf(s, p).Idle? && Read !in asked
    ensures var (s', r) := PortLookup(s, p, path, asked);
            && (r >= 0 <==> Taken(s, path) && HasRoom(s, p))
            && (r >= 0 ==> exists i :: 0 <= i < 16 && Carries(s, i, path) && Gains(s, s', p, r, s.ports[i].value) && s'.acts == s.acts
                             && forall x :: x in s'.tables[p][r].rights <==> Named(x) && x in asked)
            && (r < 0 ==> s' == s)
            && (r == -ENOENT <==> !Taken(s, path))
  {
    hide Inv, Install, Gains, PortFind, Taken, Carries;
    FindExactly(s, path);
    AskedNamed(asked);
    var i := PortFind(s, path, 0);
    if i < 16 {
      PortSteps.PublishedLive(s, i);
      assert asked * ALL - {Read} == asked * ALL;
      InstallExactly(s, p, s.ports[i].value, asked * ALL - {Read});
    }
  }

  lemma AskedNamed(asked: Rights)
    ensures forall x :: x in asked * ALL <==> Named(x) && x in asked
  {
    forall x ensures x in asked * ALL <==> Named(x) && x in asked {
      NamedIsAll(x);
    }
  }

  /** With READ: the first half of a publication changes nothing but the caller's
      place, and remembers the first empty entry and the named rights asked for. */
  lemma LookupPublishes(s: State, p: Pid, path: string, asked: Rights)
    requires Inv(s) && ActOf(s, p).Idle? && Read in asked
    ensures var (s', r) := PortLookup(s, p, path, asked);
            && (r == -EEXIST <==> Taken(s, path))
            && (r == -ENOSPC <==> !Taken(s, path) && forall i :: 0 <= i < 16 ==> s.ports[i].Some?)
            && (r == 0 <==> !Taken(s, path) && exists i :: 0 <= i < 16 && s.ports[i].None?)
            && (r != 0 ==> s' == s)
            && (r == 0 ==> p in s'.acts && s' == s.(acts := s.acts[p := s'.acts[p]])
                           && var a := s'.acts[p];
                           && a.PortSlot? && a.path == path && s.ports[a.slot].None?
                           && (forall i :: 0 <= i < a.slot ==> s.ports[i].Some?)
                           && forall x :: x in a.want <==> Named(x) && x in asked)
  {
    hide Inv, PortFind, Taken, Carries;
    FindExactly(s, path);
    AskedNamed(asked);
    hide Named;
  }

  /** The port that is allocated in between belongs to the caller, is empty, and
      keeps at most 31 characters of the name. */
  lemma AllocExactly(s: State, p: Pid, o: ObjId)
    requires ActOf(s, p).PortSlot? && o !in s.objs
    ensures var s', a := PortAlloc(s, p, o), s.acts[p];
            && s'.tables == s.tables && s'.ports == s.ports && s'.lost == s.lost
            && s'.acts == s.acts[p := PortReady(o, a.slot, a.path, a.want)]
            && s'.objs.Keys == s.objs.Keys + {o} && (forall x :: x in s.objs ==> s'.objs[x] == s.objs[x])
            && s'.objs[o].typ == Port && s'.objs[o].owner == p && s'.objs[o].queue == []
            && s'.objs[o].name == if |a.path| < 32 then a.path else a.path[..31]
  {
  }

  /** The second half: the caller gets the receive right and the entry, unless the
      name was taken meanwhile or its table is full. */
  lemma PublishExactly(s: State, p: Pid)
    requires Inv(s) && ActOf(s, p).PortReady?
    ensures var (s', r) := PortPublish(s, p);
            var a := s.acts[p];
            && (r == -EEXIST <==> Taken(s, a.path))
            && (r >= 0 <==> !Taken(s, a.path) && HasRoom(s, p))
            && (r < 0 ==> s' == s.(acts := s.acts[p := Freeing(a.obj)]))
            && (r >= 0 ==>
                  && Gains(s, s'.(ports := s.ports), p, r, a.obj) && s'.tables[p][r].rights == a.want && Read in a.want
                  && s'.ports == s.ports[a.slot := Some(a.obj)] && s'.acts == s.acts[p := Idle])
  {
    var a := s.acts[p];
    assert ActOk(s, p, a);
    hide Inv, Install, PortFind, Taken, Gains;
    FindExactly(s, a.path);
    OwnedHasNoRef(s, p);
    InstallExactly(s, p, a.obj, a.want);
    var (s1, h) := Install(s, p, a.obj, a.want);
    if h >= 0 {
      GainsMove(s, s1, p, h, a.obj, Idle);
      GainsPorts(s, s1, p, h, a.obj);
      assert !Taken(s, a.path) ==> PortPublish(s, p).0.(ports := s.ports) == SetAct(s1, p, Idle);
    }
  }

  lemma GainsPorts(s: State, s': State, p: Pid, h: int, o: ObjId)
    requires Gains(s, s', p, h, o)
    ensures s'.ports == s.ports
  {
  }

  // ----- new processes -----------------------------------------------------------------------------

  /** process_install_stdio: standard input can be read, the two outputs written. */
  lemma StdioExactly(s: State, q: Pid, p: Pid)
    requires Inv(s) && ActOf(s, q).Creating? && p in s.tables
    ensures var s', o := InstallStdio(s, q, p), s.acts[q].obj;
            && s'.tables.Keys == s.tables.Keys && (forall r :: r in s.tables && r != p ==> s'.tables[r] == s.tables[r])
            && s'.tables[p][0] == Used(o, {Read}) && s'.tables[p][1] == Used(o, {Write}) && s'.tables[p][2] == Used(o, {Write})
            && (forall i :: 3 <= i < 32 ==> s'.tables[p][i] == s.tables[p][i])
            && s'.ports == s.ports && s'.acts == s.acts[q := Idle] && SameObjects(s, s')
  {
    OwnedHasNoRef(s, q);
    hide Inv;
  }

  /** process_redirect_child_fd_from: the child's slot becomes a copy of the
      owner's, with the same rights. */
  lemma RedirectExactly(s: State, p: Pid, owner: Pid, child: Pid, slot: int, fd: int)
    requires Inv(s) && ActOf(s, p).Idle?
    ensures var (s', r) := Redirect(s, p, owner, child, slot, fd);
            && r == (if 0 <= slot < 32 && Handle(s, owner, fd) then 0 else -EBADF)
            && s'.tables.Keys >= s.tables.Keys
            && (forall q, i :: q in s.tables && 0 <= i < 32 && (r < 0 || (q, i) != (child, slot)) ==> s'.tables[q][i] == s.tables[q][i])
            && (r == 0 ==> child in s'.tables && s'.tables[child][slot] == s.tables[owner][fd])
            && SameObjects(s, s') && s'.lost == s.lost
            && (s'.acts == s.acts || (Handle(s, child, slot) && s'.acts == s.acts[p := Freeing(s.tables[child][slot].obj)]))
            && (child !in s.tables && child in s'.tables ==>
                  forall i :: 0 <= i < 32 && (r < 0 || i != slot) ==> s'.tables[child][i].Free?)
  {
    hide Inv, SameObjects;
    SameSelf(s);
    var s0 := EnsureTable(s, child);
    SettleSame(s, s, s0, p, 0);
    if 0 <= slot < 32 && 0 <= fd < 32 && owner in s.tables && s0.tables[owner][fd].Used? {
      RedirectDone(s, s0, p, owner, child, slot, fd);
      hide Redirect;
    }
  }

  lemma RedirectDone(s: State, s0: State, p: Pid, owner: Pid, child: Pid, slot: nat, fd: nat)
    requires Inv(s) && slot < 32 && fd < 32 && owner in s.tables && s0 == EnsureTable(s, child) && s0.tables[owner][fd].Used?
    ensures Handle(s, owner, fd) && Redirect(s, p, owner, child, slot, fd).1 == 0
    ensures var s' := Redirect(s, p, owner, child, slot, fd).0;
            && s'.tables == s0.tables[child := s0.tables[child][slot := s0.tables[owner][fd]]]
            && SameObjects(s, s') && s'.lost == s.lost
            && (s'.acts == s.acts || (Handle(s, child, slot) && s'.acts == s.acts[p := Freeing(s.tables[child][slot].obj)]))
  {
    hide Inv, Put, Forget, SameObjects, Settle;
    var src, prev := s0.tables[owner][fd], s0.tables[child][slot];
    NamedLive(s, owner, fd);
    if prev.Used? {
      NamedLive(s, child, slot);
    }
    OverwriteExactly(s0, child, slot, src, prev);
    var s1 := Put(s0, child, slot, src.obj, src.rights);
    SettleSame(s, s0, s1, p, src.obj);
    if prev.Used? {
      SettleSame(s, s0, Forget(s1, prev.obj, prev.rights), p, prev.obj);
    }
  }

  lemma SettleSame(s: State, s0: State, s': State, p: Pid, o: ObjId)
    requires s0.objs == s.objs && SameObjects(s0, s')
    ensures SameObjects(s, s') && SameObjects(s, Settle(s', p, o))
    ensures Settle(s', p, o).tables == s'.tables && Settle(s', p, o).lost == s'.lost
    ensures Settle(s', p, o).acts == s'.acts || Settle(s', p, o).acts == s'.acts[p := Freeing(o)]
  {
  }

  lemma OverwriteExactly(s: State, child: Pid, slot: nat, src: Slot, prev: Slot)
    requires child in s.tables && slot < 32 && prev == s.tables[child][slot]
    requires src.Used? && src.obj in s.objs && (prev.Used? ==> prev.obj in s.objs)
    ensures var s1 := Put(s, child, slot, src.obj, src.rights);
            && s1.tables == s.tables[child := s.tables[child][slot := src]] && SameObjects(s, s1) && s1.lost == s.lost && s1.acts == s.acts
            && (prev.Used? ==>
                  var s2 := Forget(s1, prev.obj, prev.rights);
                  s2.tables == s1.tables && SameObjects(s, s2) && s2.lost == s.lost && s2.acts == s.acts)
  {
    PutShape(s, child, slot, src.obj, src.rights);
    var s1 := Put(s, child, slot, src.obj, src.rights);
    forall x | x in s.objs ensures SameIdentity(s.objs[x], s1.objs[x]) {}
    if prev.Used? {
      ForgetShape(s1, prev.obj, prev.rights);
      var s2 := Forget(s1, prev.obj, prev.rights);
      hide Put, Forget;
      forall x | x in s.objs ensures SameIdentity(s.objs[x], s2.objs[x]) {
        assert SameIdentity(s.objs[x], s1.objs[x]);
      }
    }
  }

  // ----- messages --------------------------------------------------------------------------------------

  /** The queue of o became q, and nothing else changed. */
  ghost predicate Requeues(s: State, s': State, o: ObjId, q: seq<Message>) {
    o in s.objs && s' == s.(objs := s.objs[o := s.objs[o].(queue := q)])
  }

  /** One pass of a port write: the message joins the queue under the sender's own
      pid. */
  lemma PortWriteExactly(s: State, p: Pid, m: Message)
    requires Inv(s) && ActOf(s, p).Pinned?
    ensures var (s', r) := PortWrite(s, p, m);
            var o := s.acts[p].obj;
            && o in s.objs
            && var k := s.objs[o];
            && (r == -EINVAL <==> k.typ != Port)
            && (r == -EPIPE <==> k.typ == Port && k.readers == 0)
            && (r == -EAGAIN <==> k.typ == Port && k.readers != 0 && |k.queue| >= 32)
            && (r == MESSAGE_SIZE <==> k.typ == Port && k.readers != 0 && |k.queue| < 32)
            && (r != MESSAGE_SIZE ==> s' == s)
            && (r == MESSAGE_SIZE ==>
                  Requeues(s, s', o, k.queue + [Message(p, m.kind, m.data1, m.data2, m.payload)]))
  {
    PinLive(s, p);
    hide Inv;
  }

  /** One pass of a port read: the oldest message leaves and is handed out. */
  lemma PortReadExactly(s: State, p: Pid)
    requires Inv(s) && ActOf(s, p).Pinned?
    ensures var (s', r, m) := PortRead(s, p);
            var o := s.acts[p].obj;
            && o in s.objs
            && var k := s.objs[o];
            && (r == -EINVAL <==> k.typ != Port)
            && (r == MESSAGE_SIZE <==> k.typ == Port && k.queue != [])
            && (r == 0 <==> k.typ == Port && k.queue == [] && k.writers == 0)
            && (r == -EAGAIN <==> k.typ == Port && k.queue == [] && k.writers != 0)
            && (r != MESSAGE_SIZE ==> s' == s && m == None)
            && (r == MESSAGE_SIZE ==> m.Some? && k.queue == [m.value] + Obj(s', o).queue && Requeues(s, s', o, Obj(s', o).queue))
  {
    PinLive(s, p);
    hide Inv;
    if s.objs[s.acts[p].obj].queue != [] {
      var q := s.objs[s.acts[p].obj].queue;
      assert q == [q[0]] + q[1..];
    }
  }
}
