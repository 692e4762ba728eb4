/** internal/service/acl.go: the access-list evaluator.  A 32-bit mask is the set of the rights
    whose bits it has: | is union, &^ is difference, and a bit test is membership.
    grantedRights walks the entries once with two accumulated masks; what a reader wants to know
    is right by right: the first entry that applies and names the right decides it. */
module AccessList {

  /** The bits of a mask; Unnamed(n) is bit n when it has no name here. */
  datatype Right =
    | ReadData | WriteData | AppendData | ReadEA | WriteEA | Execute | DeleteChild
    | ReadAttributes | WriteAttributes
    | Delete | ReadControl | WriteDAC | WriteOwner | Synchronize
    | GenericAll | GenericExecute | GenericWrite | GenericRead
    | Unnamed(bit: nat)

  type Mask = set<Right>

  const GENERIC: Mask := {GenericAll, GenericExecute, GenericWrite, GenericRead}
  const FILE_GENERIC_READ: Mask := {ReadControl, ReadData, ReadAttributes, ReadEA, Synchronize}
  const FILE_GENERIC_WRITE: Mask := {ReadControl, WriteData, WriteAttributes, WriteEA, AppendData, Synchronize}
  const FILE_GENERIC_EXECUTE: Mask := {ReadControl, ReadAttributes, Execute, Synchronize}
  const FILE_ALL_ACCESS: Mask :=
    {ReadData, WriteData, AppendData, ReadEA, WriteEA, Execute, DeleteChild, ReadAttributes, WriteAttributes,
     Delete, ReadControl, WriteDAC, WriteOwner, Synchronize}
  const READ_EXECUTE: Mask := FILE_GENERIC_READ + FILE_GENERIC_EXECUTE
  const OWNER_IMPLICIT: Mask := {ReadControl, WriteDAC}

  datatype Flag = ObjectInherit | ContainerInherit | InheritOnly

  const SYSTEM: string := "S-1-5-18"
  const ADMINISTRATORS: string := "S-1-5-32-544"
  const CREATOR_OWNER: string := "S-1-3-0"
  const OWNER_RIGHTS: string := "S-1-3-4"

  datatype Ace = Ace(deny: bool, flags: set<Flag>, mask: Mask, sid: string)

  method MapGeneric(mask: Mask) returns (m: Mask)
    ensures m == Mapped(mask)
  {
    m := mask - GENERIC;
    if GenericRead in mask {
      m := m + FILE_GENERIC_READ;
    }
    if GenericWrite in mask {
      m := m + FILE_GENERIC_WRITE;
    }
    if GenericExecute in mask {
      m := m + FILE_GENERIC_EXECUTE;
    }
    if GenericAll in mask {
      m := m + FILE_ALL_ACCESS;
    }
  }

  /** A right is named by a mask directly, or through a generic right that stands for it. */
  predicate Names(mask: Mask, r: Right) {
    r !in GENERIC &&
    (r in mask
     || (GenericRead in mask && r in FILE_GENERIC_READ) || (GenericWrite in mask && r in FILE_GENERIC_WRITE)
     || (GenericExecute in mask && r in FILE_GENERIC_EXECUTE) || (GenericAll in mask && r in FILE_ALL_ACCESS))
  }

  /** The file rights a mask stands for. */
  function Mapped(mask: Mask): (m: Mask)
    ensures forall r :: r in m <==> Names(mask, r)
  {
    mask - GENERIC
    + (if GenericRead in mask then FILE_GENERIC_READ else {})
    + (if GenericWrite in mask then FILE_GENERIC_WRITE else {})
    + (if GenericExecute in mask then FILE_GENERIC_EXECUTE else {})
    + (if GenericAll in mask then FILE_ALL_ACCESS else {})
  }

  /** The mapping leaves no generic right and is done once mapped. */
  lemma MappedOnce(mask: Mask)
    ensures Mapped(mask) !! GENERIC && Mapped(Mapped(mask)) == Mapped(mask)
  {
    assert Mapped(mask) !! GENERIC;
  }

  // ---- The reference: the first entry that names a right decides it ----------

  /** The SIDs the holder has; the owner also holds OWNER RIGHTS. */
  function Holds(owner: string, sids: seq<string>): set<string> {
    (set s | s in sids) + if owner in sids then {OWNER_RIGHTS} else {}
  }

  /** The entry applies to the object itself and to this holder. */
  predicate Applies(e: Ace, holds: set<string>) {
    InheritOnly !in e.flags && e.sid in holds
  }

  predicate Decides(e: Ace, holds: set<string>, r: Right) {
    Applies(e, holds) && r in Mapped(e.mask)
  }

  datatype Verdict = Silent | Allow | Deny

  function Decision(acl: seq<Ace>, holds: set<string>, r: Right): Verdict {
    if acl == [] then Silent
    else
      var n := |acl| - 1;
      var before := Decision(acl[..n], holds, r);
      if before != Silent then before
      else if Decides(acl[n], holds, r) then (if acl[n].deny then Deny else Allow)
      else Silent
  }

  /** i is the first entry that decides r. */
  predicate FirstToDecide(acl: seq<Ace>, holds: set<string>, r: Right, i: int) {
    0 <= i < |acl| && Decides(acl[i], holds, r) && forall j :: 0 <= j < i ==> !Decides(acl[j], holds, r)
  }

  /** Decision is the word of the first entry that decides r. */
  lemma {:induction false} DecisionIsFirst(acl: seq<Ace>, holds: set<string>, r: Right, i: int)
    requires FirstToDecide(acl, holds, r, i)
    ensures Decision(acl, holds, r) == if acl[i].deny then Deny else Allow
  {
    var n := |acl| - 1;
    if i < n {
      assert FirstToDecide(acl[..n], holds, r, i);
      DecisionIsFirst(acl[..n], holds, r, i);
    } else {
      SilentWhenNone(acl[..n], holds, r);
    }
  }

  /** And Silent when no entry decides it. */
  lemma {:induction false} SilentWhenNone(acl: seq<Ace>, holds: set<string>, r: Right)
    ensures Decision(acl, holds, r) == Silent <==> forall i :: 0 <= i < |acl| ==> !Decides(acl[i], holds, r)
  {
    if acl != [] {
      var n := |acl| - 1;
      SilentWhenNone(acl[..n], holds, r);
      assert forall i :: 0 <= i < n ==> acl[..n][i] == acl[i];
    }
  }

  lemma {:induction false} FirstDecider(acl: seq<Ace>, holds: set<string>, r: Right) returns (i: int)
    requires Decision(acl, holds, r) != Silent
    ensures FirstToDecide(acl, holds, r, i)
  {
    var n := |acl| - 1;
    i := n;
    SilentWhenNone(acl[..n], holds, r);
    assert forall j :: 0 <= j < n ==> acl[..n][j] == acl[j];
    if Decision(acl[..n], holds, r) != Silent {
      i := FirstDecider(acl[..n], holds, r);
    }
  }

  /** The list speaks of OWNER RIGHTS on the object itself. */
  predicate OwnerRightsSet(acl: seq<Ace>) {
    exists i :: 0 <= i < |acl| && InheritOnly !in acl[i].flags && acl[i].sid == OWNER_RIGHTS
  }

  /** The owner has two rights without an entry, even denied ones, unless the list speaks of
      OWNER RIGHTS. */
  predicate Implicit(owner: string, acl: seq<Ace>, sids: seq<string>, r: Right) {
    owner in sids && !OwnerRightsSet(acl) && r in OWNER_IMPLICIT
  }

  predicate Granted(owner: string, acl: seq<Ace>, sids: seq<string>, r: Right) {
    Decision(acl, Holds(owner, sids), r) == Allow || Implicit(owner, acl, sids, r)
  }

  /** What the owner has on its own: without an entry two rights; with one for OWNER RIGHTS, what
      that one says.  Nobody else has either. */
  lemma OwnerAlone(owner: string, sids: seq<string>, mask: Mask, r: Right)
    ensures Granted(owner, [], sids, r) <==> owner in sids && (r == ReadControl || r == WriteDAC)
    ensures Granted(owner, [Ace(false, {}, mask, OWNER_RIGHTS)], sids, r) <==>
            (owner in sids || OWNER_RIGHTS in sids) && Names(mask, r)
  {
    var acl := [Ace(false, {}, mask, OWNER_RIGHTS)];
    assert acl[..0] == [] && acl[0].sid == OWNER_RIGHTS && OwnerRightsSet(acl);
  }

  // ---- The walk -------------------------------------------------------------

  /** The two accumulators hold exactly the rights decided so far. */
  ghost predicate Accumulated(acl: seq<Ace>, holds: set<string>, granted: Mask, denied: Mask) {
    forall r ::
      (r in granted <==> Decision(acl, holds, r) == Allow) && (r in denied <==> Decision(acl, holds, r) == Deny)
  }

  lemma DecisionSnoc(acl: seq<Ace>, e: Ace, holds: set<string>, r: Right)
    ensures Decision(acl + [e], holds, r) ==
            if Decision(acl, holds, r) != Silent then Decision(acl, holds, r)
            else if Decides(e, holds, r) then (if e.deny then Deny else Allow) else Silent
  {
    assert (acl + [e])[..|acl|] == acl;
  }

  lemma OwnerRightsSnoc(acl: seq<Ace>, e: Ace)
    ensures OwnerRightsSet(acl + [e]) <==> OwnerRightsSet(acl) || (InheritOnly !in e.flags && e.sid == OWNER_RIGHTS)
  {
    var all := acl + [e];
    assert all[|acl|] == e;
    assert forall i :: 0 <= i < |acl| ==> all[i] == acl[i];
  }

  /** One more entry: what it decides goes to its accumulator, less what is decided already. */
  lemma AccumulatedNext(acl: seq<Ace>, e: Ace, holds: set<string>, granted: Mask, denied: Mask,
                        granted': Mask, denied': Mask)
    requires Accumulated(acl, holds, granted, denied)
    requires granted' == if Applies(e, holds) && !e.deny then granted + (Mapped(e.mask) - denied) else granted
    requires denied' == if Applies(e, holds) && e.deny then denied + (Mapped(e.mask) - granted) else denied
    ensures Accumulated(acl + [e], holds, granted', denied')
  {
    forall r
      ensures r in granted' <==> Decision(acl + [e], holds, r) == Allow
      ensures r in denied' <==> Decision(acl + [e], holds, r) == Deny
    {
      DecisionSnoc(acl, e, holds, r);
    }
  }

  method GrantedRights(owner: string, acl: seq<Ace>, nullDACL: bool, sids: seq<string>) returns (granted: Mask)
    ensures nullDACL ==> granted == FILE_ALL_ACCESS
    ensures !nullDACL ==> forall r :: r in granted <==> Granted(owner, acl, sids, r)
  {
    if nullDACL {
      return FILE_ALL_ACCESS;
    }
    var holds := set s | s in sids;
    var isOwner := owner in holds;
    var ownerRightsSet := false;
    if isOwner {
      holds := holds + {OWNER_RIGHTS};
    }
    assert holds == Holds(owner, sids);
    var denied: Mask := {};
    granted := {};
    for i := 0 to |acl|
      invariant Accumulated(acl[..i], holds, granted, denied)
      invariant granted !! denied
      invariant ownerRightsSet <==> OwnerRightsSet(acl[..i])
    {
      var e := acl[i];
      assert acl[..i + 1] == acl[..i] + [e];
      OwnerRightsSnoc(acl[..i], e);
      ghost var (granted0, denied0) := (granted, denied);
      if InheritOnly in e.flags {
        AccumulatedNext(acl[..i], e, holds, granted, denied, granted, denied);
        continue;
      }
      if e.sid == OWNER_RIGHTS {
        ownerRightsSet := true;
      }
      if e.sid !in holds {
        AccumulatedNext(acl[..i], e, holds, granted, denied, granted, denied);
        continue;
      }
      var m := MapGeneric(e.mask);
      if e.deny {
        denied := denied + (m - granted);
      } else {
        granted := granted + (m - denied);
      }
      AccumulatedNext(acl[..i], e, holds, granted0, denied0, granted, denied);
    }
    assert acl[..|acl|] == acl;
    if isOwner && !ownerRightsSet {
      granted := granted + OWNER_IMPLICIT;
    }
  }

  // ---- Deny-first lists -----------------------------------------------------

  /** Every applicable deny entry comes before every applicable allow entry, as Windows orders them. */
  predicate DenyFirst(acl: seq<Ace>, holds: set<string>) {
    forall i, j :: 0 <= i < j < |acl| && Applies(acl[i], holds) && Applies(acl[j], holds) && acl[j].deny ==> acl[i].deny
  }

  function Union(acl: seq<Ace>, holds: set<string>, deny: bool): (u: Mask)
    ensures forall r :: r in u <==> exists i :: 0 <= i < |acl| && acl[i].deny == deny && Decides(acl[i], holds, r)
  {
    if acl == [] then {}
    else
      var n := |acl| - 1;
      assert forall i :: 0 <= i < n ==> acl[..n][i] == acl[i];
      Union(acl[..n], holds, deny) + if Applies(acl[n], holds) && acl[n].deny == deny then Mapped(acl[n].mask) else {}
  }

  /** On a deny-first list a deny that decides r speaks before every allow. */
  lemma DenySpeaksFirst(acl: seq<Ace>, holds: set<string>, r: Right, i: int, j: int)
    requires DenyFirst(acl, holds) && FirstToDecide(acl, holds, r, i)
    requires 0 <= j < |acl| && acl[j].deny && Decides(acl[j], holds, r)
    ensures acl[i].deny
  {
    assert i <= j;
  }

  /** On a deny-first list the walk grants the union of the allows without the union of the denies. */
  lemma DenyFirstReduces(acl: seq<Ace>, holds: set<string>, r: Right)
    requires DenyFirst(acl, holds)
    ensures Decision(acl, holds, r) == Allow <==> r in Union(acl, holds, false) - Union(acl, holds, true)
  {
    SilentWhenNone(acl, holds, r);
    if Decision(acl, holds, r) != Silent {
      var i := FirstDecider(acl, holds, r);
      DecisionIsFirst(acl, holds, r, i);
      if r in Union(acl, holds, true) {
        var j :| 0 <= j < |acl| && acl[j].deny == true && Decides(acl[j], holds, r);
        DenySpeaksFirst(acl, holds, r, i, j);
      }
    }
  }

  // ---- More SIDs, more rights? ----------------------------------------------

  /** Not in general: a deny entry for the added SID takes a right away. */
  lemma MoreSidsFewerRights()
    ensures
      var acl := [Ace(true, {}, {WriteData}, "B"), Ace(false, {}, {WriteData}, "A")];
      Granted("O", acl, ["A"], WriteData) && !Granted("O", acl, ["A", "B"], WriteData)
  {
    var acl := [Ace(true, {}, {WriteData}, "B"), Ace(false, {}, {WriteData}, "A")];
    assert "B" in ["A", "B"] && "A" in ["A"];
    assert Names({WriteData}, WriteData);
    DecisionIsFirst(acl, Holds("O", ["A"]), WriteData, 1);
    DecisionIsFirst(acl, Holds("O", ["A", "B"]), WriteData, 0);
  }

  /** With more SIDs the decision changes only through an entry for an added SID that now comes
      first. */
  lemma MoreSidsDecision(acl: seq<Ace>, holds: set<string>, more: set<string>, r: Right)
    requires holds <= more
    ensures Decision(acl, more, r) != Decision(acl, holds, r) ==>
              exists i :: FirstToDecide(acl, more, r, i) && acl[i].sid !in holds
    ensures Decision(acl, holds, r) != Silent ==> Decision(acl, more, r) != Silent
  {
    SilentWhenNone(acl, holds, r);
    SilentWhenNone(acl, more, r);
    if Decision(acl, more, r) != Silent {
      var i := FirstDecider(acl, more, r);
      DecisionIsFirst(acl, more, r, i);
      if acl[i].sid in holds {
        assert FirstToDecide(acl, holds, r, i);
        DecisionIsFirst(acl, holds, r, i);
      }
    }
  }

  /** The entry for an added SID that takes a right away: a deny, and the first to decide it. */
  predicate TakesAway(acl: seq<Ace>, holds: set<string>, more: set<string>, r: Right, i: int) {
    FirstToDecide(acl, more, r, i) && acl[i].deny && acl[i].sid !in holds
  }

  /** A granted right is lost with more SIDs exactly when it is not an implicit owner right and
      the first entry to decide it is now a deny for an added SID. */
  lemma MoreSidsLoseExactly(owner: string, acl: seq<Ace>, sids: seq<string>, more: seq<string>, r: Right)
    requires forall s :: s in sids ==> s in more
    requires Granted(owner, acl, sids, r)
    ensures !Granted(owner, acl, more, r) <==>
            !Implicit(owner, acl, more, r) && exists i :: TakesAway(acl, Holds(owner, sids), Holds(owner, more), r, i)
  {
    var (h, m) := (Holds(owner, sids), Holds(owner, more));
    MoreSidsDecision(acl, h, m, r);
    if Decision(acl, m, r) == Deny && Decision(acl, h, r) == Allow {
      var j :| FirstToDecide(acl, m, r, j) && acl[j].sid !in h;
      DecisionIsFirst(acl, m, r, j);
      assert TakesAway(acl, h, m, r, j);
    }
    if i :| TakesAway(acl, h, m, r, i) {
      DecisionIsFirst(acl, m, r, i);
    }
  }

  // ---- The service folder ---------------------------------------------------

  function ServiceDirACL(svc: string): seq<Ace> {
    var inherit := {ObjectInherit, ContainerInherit};
    [ Ace(false, inherit, FILE_ALL_ACCESS, SYSTEM),
      Ace(false, inherit, FILE_ALL_ACCESS, ADMINISTRATORS),
      Ace(false, inherit, READ_EXECUTE, svc),
      Ace(false, {}, {WriteData, AppendData}, svc),
      Ace(false, inherit + {InheritOnly}, FILE_ALL_ACCESS, CREATOR_OWNER) ]
  }

  /** On the folder that the install sets up, a holder of the service's SID that is neither the
      owner nor SYSTEM nor an administrator may read, execute, add a file and add a subfolder,
      and nothing else: it cannot delete or replace what others put there. */
  lemma ServiceDirRights(svc: string, owner: string, sids: seq<string>, r: Right)
    requires svc in sids && owner !in sids && SYSTEM !in sids && ADMINISTRATORS !in sids
    ensures Granted(owner, ServiceDirACL(svc), sids, r) <==> r in READ_EXECUTE + {WriteData, AppendData}
  {
    var acl, holds := ServiceDirACL(svc), Holds(owner, sids);
    NoOwner(owner, sids, svc);
    ServiceEntries(svc, holds, r);
    SilentWhenNone(acl, holds, r);
    if Decision(acl, holds, r) != Silent {
      var i := FirstDecider(acl, holds, r);
      DecisionIsFirst(acl, holds, r, i);
      assert i == 2 || i == 3;
    }
  }

  lemma NoOwner(owner: string, sids: seq<string>, svc: string)
    requires svc in sids && owner !in sids && SYSTEM !in sids && ADMINISTRATORS !in sids
    ensures
      var holds := Holds(owner, sids);
      svc in holds && SYSTEM !in holds && ADMINISTRATORS !in holds
  {
  }

  lemma ServiceEntries(svc: string, holds: set<string>, r: Right)
    requires svc in holds && SYSTEM !in holds && ADMINISTRATORS !in holds
    ensures
      var acl := ServiceDirACL(svc);
      && (forall i :: 0 <= i < |acl| ==> !acl[i].deny && (Decides(acl[i], holds, r) ==> i == 2 || i == 3))
      && (Decides(acl[2], holds, r) <==> r in READ_EXECUTE)
      && (Decides(acl[3], holds, r) <==> r in {WriteData, AppendData})
  {
    var acl := ServiceDirACL(svc);
    assert InheritOnly in acl[4].flags;
    assert Mapped(READ_EXECUTE) == READ_EXECUTE;
    assert Mapped({WriteData, AppendData}) == {WriteData, AppendData};
  }
}
