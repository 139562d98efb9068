/** The two-way index of running Claude children (`ManagerState` in
    crates/host-core/src/agent_session.rs). */
module AgentIndex {
  import opened Basics

  type AgentId = string
  type ResumeId = string

  /** A running child process, by its position in the order of spawning. */
  type Child = nat

  /** `detached` stands for `last_detached_at.is_some()`. */
  datatype Entry = Entry(child: Child, resume: Option<ResumeId>, detached: bool)

  datatype Index = Index(byId: map<AgentId, Entry>, byResume: map<ResumeId, AgentId>)

  /** A resume id leads to a registered agent, and to one that answers to that very id. */
  ghost predicate Consistent(x: Index) {
    forall r :: r in x.byResume ==> x.byResume[r] in x.byId && x.byId[x.byResume[r]].resume == Some(r)
  }

  // ---------------------------------------------------------------- operations

  function Inserted(x: Index, a: AgentId, e: Entry): Index {
    Index(x.byId[a := e], if e.resume.Some? then x.byResume[e.resume.value := a] else x.byResume)
  }

  function Removed(x: Index, a: AgentId): Index {
    if a !in x.byId then x
    else
      var resume := x.byId[a].resume;
      Index(x.byId - {a},
            if resume.Some? && resume.value in x.byResume && x.byResume[resume.value] == a
            then x.byResume - {resume.value} else x.byResume)
  }

  function Rekeyed(x: Index, old_: AgentId, new_: AgentId): Index {
    if old_ !in x.byId then x
    else
      var e := x.byId[old_].(detached := false);
      Index((x.byId - {old_})[new_ := e],
            if e.resume.Some? then x.byResume[e.resume.value := new_] else x.byResume)
  }

  function Noted(x: Index, a: AgentId, r: ResumeId): Index {
    if a !in x.byId || x.byId[a].resume.Some? then x
    else Index(x.byId[a := x.byId[a].(resume := Some(r))], x.byResume[r := a])
  }

  function Marked(x: Index, a: AgentId): Index {
    if a !in x.byId then x else x.(byId := x.byId[a := x.byId[a].(detached := true)])
  }

  /** The same operations on the maps in place, as the manager performs them under its lock. */
  class ManagerState {
    var byId: map<AgentId, Entry>
    var byResume: map<ResumeId, AgentId>

    ghost function View(): Index
      reads this
    {
      Index(byId, byResume)
    }

    constructor ()
      ensures View() == Index(map[], map[]) && Consistent(View())
    {
      byId, byResume := map[], map[];
    }

    method Insert(a: AgentId, e: Entry)
      requires Consistent(View())
      modifies this
      ensures View() == Inserted(old(View()), a, e)
      ensures Consistent(View()) <==> Admits(old(View()), a, e.resume)
    {
      ghost var x := View();
      if e.resume.Some? {
        byResume := byResume[e.resume.value := a];
      }
      byId := byId[a := e];
      InsertIff(x, a, e);
    }

    method Remove(a: AgentId) returns (removed: Option<Entry>)
      requires Consistent(View())
      modifies this
      ensures View() == Removed(old(View()), a) && Consistent(View())
      ensures removed == if a in old(byId) then Some(old(byId)[a]) else None
    {
      ghost var x := View();
      RemoveKeeps(x, a);
      if a !in byId {
        return None;
      }
      var e := byId[a];
      byId := byId - {a};
      if e.resume.Some? {
        if e.resume.value in byResume && byResume[e.resume.value] == a {
          byResume := byResume - {e.resume.value};
        }
      }
      return Some(e);
    }

    method Rekey(old_: AgentId, new_: AgentId) returns (moved: Option<Entry>)
      requires Consistent(View())
      modifies this
      ensures View() == Rekeyed(old(View()), old_, new_)
      ensures moved.Some? <==> old_ in old(byId)
      ensures moved.Some? ==> new_ in byId && byId[new_] == moved.value
      ensures old_ in old(byId) ==>
                (Consistent(View()) <==> old_ == new_ || Admits(old(View()), new_, old(byId)[old_].resume))
    {
      ghost var x := View();
      if old_ !in byId {
        return None;
      }
      var e := byId[old_];
      byId := byId - {old_};
      if e.resume.Some? {
        byResume := byResume[e.resume.value := new_];
      }
      e := e.(detached := false);
      byId := byId[new_ := e];
      RekeyIff(x, old_, new_);
      return Some(e);
    }

    /** `AgentManager::note_resume_id`: only the first id that is learnt counts. */
    method NoteResumeId(a: AgentId, r: ResumeId)
      requires Consistent(View())
      modifies this
      ensures View() == Noted(old(View()), a, r) && Consistent(View())
    {
      NoteKeeps(View(), a, r);
      if a !in byId {
        return;
      }
      if byId[a].resume.Some? {
        return;
      }
      byId := byId[a := byId[a].(resume := Some(r))];
      byResume := byResume[r := a];
    }

    /** The part of `AgentManager::detach` that runs under the lock. */
    method MarkDetached(a: AgentId) returns (child: Option<Child>)
      requires Consistent(View())
      modifies this
      ensures View() == Marked(old(View()), a) && Consistent(View())
      ensures child == if a in old(byId) then Some(old(byId)[a].child) else None
    {
      if a !in byId {
        return None;
      }
      byId := byId[a := byId[a].(detached := true)];
      return Some(byId[a].child);
    }
  }

  // ------------------------------------------------------------------- results

  /** No resume id other than `resume` leads to `a`; a caller can look this up before the call. */
  predicate Admits(x: Index, a: AgentId, resume: Option<ResumeId>) {
    (a in x.byId && x.byId[a].resume.Some? && x.byId[a].resume.value in x.byResume
     && x.byResume[x.byId[a].resume.value] == a)
    ==> x.byId[a].resume == resume
  }

  /** Inserting keeps the index consistent exactly when it does not bury an entry that another
      resume id still leads to. */
  lemma InsertIff(x: Index, a: AgentId, e: Entry)
    requires Consistent(x)
    ensures Consistent(Inserted(x, a, e)) <==> Admits(x, a, e.resume)
  {
    var y := Inserted(x, a, e);
    if !Admits(x, a, e.resume) {
      var r := x.byId[a].resume.value;
      assert r in y.byResume && y.byResume[r] == a && y.byId[a] == e;
    }
  }

  lemma RekeyIff(x: Index, old_: AgentId, new_: AgentId)
    requires Consistent(x) && old_ in x.byId
    ensures Consistent(Rekeyed(x, old_, new_)) <==> old_ == new_ || Admits(x, new_, x.byId[old_].resume)
  {
    var y := Rekeyed(x, old_, new_);
    if old_ != new_ && !Admits(x, new_, x.byId[old_].resume) {
      var r := x.byId[new_].resume.value;
      assert r in y.byResume && y.byResume[r] == new_ && y.byId[new_].resume == x.byId[old_].resume;
    }
  }

  lemma RemoveKeeps(x: Index, a: AgentId)
    requires Consistent(x)
    ensures Consistent(Removed(x, a))
    ensures forall r :: r in Removed(x, a).byResume <==> r in x.byResume && x.byResume[r] != a
  {
  }

  lemma NoteKeeps(x: Index, a: AgentId, r: ResumeId)
    requires Consistent(x)
    ensures Consistent(Noted(x, a, r))
  {
  }

  /** The agent a resume id leads to. */
  function Holder(x: Index, r: ResumeId): Option<AgentId> {
    if r in x.byResume then Some(x.byResume[r]) else None
  }

  /** Who answers to `r` after each operation. */
  lemma InsertHolder(x: Index, a: AgentId, e: Entry, r: ResumeId)
    ensures Holder(Inserted(x, a, e), r) == if e.resume == Some(r) then Some(a) else Holder(x, r)
  {
  }

  lemma RemoveHolder(x: Index, a: AgentId, r: ResumeId)
    requires Consistent(x)
    ensures Holder(Removed(x, a), r) == if Holder(x, r) == Some(a) then None else Holder(x, r)
  {
  }

  lemma RekeyHolder(x: Index, old_: AgentId, new_: AgentId, r: ResumeId)
    requires old_ in x.byId
    ensures Holder(Rekeyed(x, old_, new_), r) == if x.byId[old_].resume == Some(r) then Some(new_) else Holder(x, r)
  {
  }

  lemma NoteHolder(x: Index, a: AgentId, q: ResumeId, r: ResumeId)
    ensures Holder(Noted(x, a, q), r) == if a in x.byId && x.byId[a].resume.None? && q == r then Some(a) else Holder(x, r)
  {
  }
}
