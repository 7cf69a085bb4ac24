/** Kubernetes Server-Side Apply over scalar leaves, as the Kubernetes documentation page
    "Server-Side Apply" describes it in its sections "Field management", "Conflicts" and
    "Transferring ownership between managers". */
module ServerSideApply {
  import opened Base
  import opened Schema
  import Trees
  import BowOut

  /** The object: its leaf values, and for each manager the non-empty set of leaves it owns. */
  datatype State = State(vals: Vals, claims: map<string, set<Slot>>)

  const CONTROLLER := "configbundle-controller"

  function Owned(s: State, m: string): set<Slot> {
    if m in s.claims then s.claims[m] else {}
  }

  predicate OwnedByOther(s: State, m: string, p: Slot) {
    exists o | o in s.claims :: o != m && p in s.claims[o]
  }

  predicate Changes(s: State, body: Vals, p: Slot) {
    p in body && p in s.vals && s.vals[p] != body[p]
  }

  /** An apply conflicts when it would change a value another manager owns. */
  predicate Conflicts(s: State, m: string, body: Vals) {
    exists p | p in body :: Changes(s, body, p) && OwnedByOther(s, m, p)
  }

  /** Leaves m gives up by leaving them out, that nobody else owns. */
  function Dropped(s: State, m: string, body: Vals): set<Slot> {
    set p | p in Owned(s, m) && p !in body && !OwnedByOther(s, m, p)
  }

  /** What manager o owns after m applied body: m owns the body, others lose what changed. */
  function OwnedAfter(s: State, m: string, body: Vals, o: string): set<Slot> {
    if o == m then body.Keys else set p | p in Owned(s, o) && !Changes(s, body, p)
  }

  function Applied(s: State, m: string, body: Vals): State {
    State((s.vals + body) - Dropped(s, m, body),
          map o | o in s.claims.Keys + {m} && OwnedAfter(s, m, body, o) != {} :: OwnedAfter(s, m, body, o))
  }

  /** The API server's answer to one apply: refused, or the new object. An unforced apply is refused for
      a conflict, and any apply when the merged object would lack a required leaf. */
  function Patched(s: State, m: string, body: Vals, force: bool): Option<State> {
    if (!force && Conflicts(s, m, body)) || !Complete(Applied(s, m, body).vals) then None else Some(Applied(s, m, body))
  }

  /** Owned leaves exist, and owning a leaf of an entry means owning the entry's list key. */
  ghost predicate ClaimsBacked(s: State) {
    forall m, p | p in Owned(s, m) :: p in s.vals && IdSlot(p.server) in Owned(s, m)
  }

  ghost predicate HasOwner(s: State, p: Slot) {
    exists m :: p in Owned(s, m)
  }

  ghost predicate WfState(s: State) {
    && WfVals(s.vals)
    && (forall m | m in s.claims :: s.claims[m] != {})
    && ClaimsBacked(s)
    && (forall p | p in s.vals :: HasOwner(s, p))
  }

  /** States without empty claim sets are equal when values and owners agree. */
  lemma SameState(a: State, b: State)
    requires forall m | m in a.claims :: a.claims[m] != {}
    requires forall m | m in b.claims :: b.claims[m] != {}
    requires forall p :: Get(a.vals, p) == Get(b.vals, p)
    requires forall m :: Owned(a, m) == Owned(b, m)
    ensures a == b
  {
    SameLookups(a.vals, b.vals);
    forall m ensures Get(a.claims, m) == Get(b.claims, m) {
      assert Owned(a, m) == Owned(b, m);
    }
    SameLookups(a.claims, b.claims);
  }

  lemma AppliedOwned(s: State, m: string, body: Vals, o: string)
    ensures Owned(Applied(s, m, body), o) == OwnedAfter(s, m, body, o)
  {
    if o !in s.claims.Keys + {m} {
      assert OwnedAfter(s, m, body, o) == {};
    }
  }

  lemma AppliedVals(s: State, m: string, body: Vals, p: Slot)
    ensures Get(Applied(s, m, body).vals, p) ==
            if p in body then Some(body[p])
            else if p in Owned(s, m) && !OwnedByOther(s, m, p) then None
            else Get(s.vals, p)
  {
  }

  lemma OtherOwner(s: State, m: string, p: Slot)
    ensures OwnedByOther(s, m, p) <==> exists o :: o != m && p in Owned(s, o)
  {
    if OwnedByOther(s, m, p) {
      var o :| o in s.claims && o != m && p in s.claims[o];
      assert p in Owned(s, o);
    }
  }

  /** Every apply that the server accepts keeps the object well formed. */
  lemma AppliedWf(s: State, m: string, body: Vals)
    requires WfState(s) && WfVals(body)
    ensures WfState(Applied(s, m, body))
  {
    var t := Applied(s, m, body);
    forall o, p | p in Owned(t, o) ensures p in t.vals && IdSlot(p.server) in Owned(t, o) {
      ClaimKept(s, m, body, o, p);
    }
    forall p | p in t.vals ensures HasOwner(t, p) {
      SomeOwner(s, m, body, p);
    }
    AppliedValsWf(s, m, body);
  }

  lemma AppliedValsWf(s: State, m: string, body: Vals)
    requires WfVals(s.vals) && WfVals(body)
    requires ClaimsBacked(Applied(s, m, body))
    requires forall p | p in Applied(s, m, body).vals :: HasOwner(Applied(s, m, body), p)
    ensures WfVals(Applied(s, m, body).vals)
  {
    forall p | p in Applied(s, m, body).vals
      ensures WfSlot(p) && IdSlot(p.server) in Applied(s, m, body).vals
      ensures Applied(s, m, body).vals[IdSlot(p.server)] == Trees.Str(p.server)
    {
      KeyPresent(Applied(s, m, body), p);
      ValueKept(s, m, body, p);
      ValueKept(s, m, body, IdSlot(p.server));
    }
  }

  lemma KeyPresent(t: State, p: Slot)
    requires ClaimsBacked(t) && HasOwner(t, p)
    ensures IdSlot(p.server) in t.vals
  {
    var o :| p in Owned(t, o);
    assert IdSlot(p.server) in Owned(t, o);
  }

  lemma ValueKept(s: State, m: string, body: Vals, p: Slot)
    requires WfVals(s.vals) && WfVals(body) && p in Applied(s, m, body).vals
    ensures WfSlot(p) && (p == IdSlot(p.server) ==> Applied(s, m, body).vals[p] == Trees.Str(p.server))
  {
    AppliedVals(s, m, body, p);
  }

  lemma ClaimKept(s: State, m: string, body: Vals, o: string, p: Slot)
    requires WfState(s) && WfVals(body) && p in Owned(Applied(s, m, body), o)
    ensures p in Applied(s, m, body).vals && IdSlot(p.server) in Owned(Applied(s, m, body), o)
  {
    AppliedOwned(s, m, body, o);
    AppliedVals(s, m, body, p);
    if o != m {
      assert p in Owned(s, o) && IdSlot(p.server) in Owned(s, o);
      OtherOwner(s, m, p);
      KeysNeverChange(s, body, p.server);
    }
  }

  /** List-key values name their entry, so no apply changes one. */
  lemma KeysNeverChange(s: State, body: Vals, server: string)
    requires WfVals(s.vals) && WfVals(body)
    ensures !Changes(s, body, IdSlot(server))
  {
  }

  lemma SomeOwner(s: State, m: string, body: Vals, p: Slot)
    requires p in s.vals ==> HasOwner(s, p)
    requires p in Applied(s, m, body).vals
    ensures HasOwner(Applied(s, m, body), p)
  {
    AppliedVals(s, m, body, p);
    OtherOwner(s, m, p);
    if p in body {
      AppliedOwned(s, m, body, m);
    } else {
      var o :| o != m && p in Owned(s, o);
      AppliedOwned(s, m, body, o);
    }
  }

  /** Re-applying the same body as the same manager changes nothing. */
  lemma ReapplyIsIdentity(s: State, m: string, body: Vals)
    ensures Applied(Applied(s, m, body), m, body) == Applied(s, m, body)
  {
    var t := Applied(s, m, body);
    var u := Applied(t, m, body);
    forall p ensures Get(u.vals, p) == Get(t.vals, p) {
      AppliedVals(s, m, body, p);
      AppliedVals(t, m, body, p);
      AppliedOwned(s, m, body, m);
    }
    SameLookups(u.vals, t.vals);
    SameOwners(u, t, s, m, body);
  }

  lemma SameOwners(u: State, t: State, s: State, m: string, body: Vals)
    requires t == Applied(s, m, body) && u == Applied(t, m, body)
    ensures u.claims == t.claims
  {
    forall o ensures Get(u.claims, o) == Get(t.claims, o) {
      AppliedOwned(s, m, body, o);
      AppliedOwned(t, m, body, o);
      forall p ensures p in OwnedAfter(t, m, body, o) <==> p in OwnedAfter(s, m, body, o) {
        AppliedVals(s, m, body, p);
      }
      assert OwnedAfter(t, m, body, o) == OwnedAfter(s, m, body, o);
    }
    SameLookups(u.claims, t.claims);
  }

  /** An apply that states what the manager owns, with current values, changes nothing. */
  lemma FaithfulApplyIsIdentity(s: State, m: string, body: Vals)
    requires forall x | x in s.claims :: s.claims[x] != {}
    requires body.Keys == Owned(s, m)
    requires forall p | p in body :: p in s.vals && s.vals[p] == body[p]
    ensures Applied(s, m, body) == s && !Conflicts(s, m, body)
  {
    var t := Applied(s, m, body);
    forall p ensures Get(t.vals, p) == Get(s.vals, p) {
      AppliedVals(s, m, body, p);
    }
    SameLookups(t.vals, s.vals);
    forall o ensures Get(t.claims, o) == Get(s.claims, o) {
      AppliedOwned(s, m, body, o);
      assert OwnedAfter(s, m, body, o) == Owned(s, o);
    }
    SameLookups(t.claims, s.claims);
  }

  // ----- what an apply without force can do

  /** Every other manager has the claims it had, over the values they had. */
  ghost predicate UntouchedOthers(s: State, t: State, m: string) {
    forall o | o != m :: Owned(t, o) == Owned(s, o) && forall p | p in Owned(s, o) :: Get(t.vals, p) == Get(s.vals, p)
  }

  /** The body states, for a leaf that another manager owns, a value it does not have. */
  ghost predicate Contradicts(s: State, m: string, body: Vals) {
    exists o, p :: o != m && p in Owned(s, o) && p in body && p in s.vals && s.vals[p] != body[p]
  }

  /** An apply without force that is accepted leaves every other manager alone. */
  lemma UnforcedKeepsOthers(s: State, m: string, body: Vals)
    requires ClaimsBacked(s)
    ensures Patched(s, m, body, false).Some? ==> UntouchedOthers(s, Patched(s, m, body, false).value, m)
  {
    if Patched(s, m, body, false).Some? {
      UnforcedIsRefusedIff(s, m, body);
      forall o | o != m
        ensures Owned(Applied(s, m, body), o) == Owned(s, o)
        ensures forall p | p in Owned(s, o) :: Get(Applied(s, m, body).vals, p) == Get(s.vals, p)
      {
        OtherUntouched(s, m, body, o);
      }
    }
  }

  lemma OtherUntouched(s: State, m: string, body: Vals, o: string)
    requires ClaimsBacked(s) && o != m && !Contradicts(s, m, body)
    ensures Owned(Applied(s, m, body), o) == Owned(s, o)
    ensures forall p | p in Owned(s, o) :: Get(Applied(s, m, body).vals, p) == Get(s.vals, p)
  {
    AppliedOwned(s, m, body, o);
    forall p | p in Owned(s, o) ensures Get(Applied(s, m, body).vals, p) == Get(s.vals, p) && !Changes(s, body, p) {
      AppliedVals(s, m, body, p);
      OtherOwner(s, m, p);
    }
  }

  /** An apply without force is refused exactly when it contradicts another manager's leaf or would leave an
      entry without a required leaf; a forced one only for the latter. */
  lemma UnforcedIsRefusedIff(s: State, m: string, body: Vals)
    ensures Conflicts(s, m, body) <==> Contradicts(s, m, body)
    ensures Patched(s, m, body, false).None? <==> Contradicts(s, m, body) || !Complete(Applied(s, m, body).vals)
    ensures Patched(s, m, body, true).None? <==> !Complete(Applied(s, m, body).vals)
  {
    if Conflicts(s, m, body) {
      var p :| p in body && Changes(s, body, p) && OwnedByOther(s, m, p);
      OtherOwner(s, m, p);
    }
    if Contradicts(s, m, body) {
      var o, p :| o != m && p in Owned(s, o) && p in body && p in s.vals && s.vals[p] != body[p];
      OtherOwner(s, m, p);
      assert Changes(s, body, p);
    }
  }

  /** managed lists every manager of the claims once, with its claim tree. */
  ghost predicate Lists(managed: seq<BowOut.Managed>, claims: map<string, set<Slot>>) {
    && (forall i | 0 <= i < |managed| ::
          managed[i].manager in claims && managed[i].spec == Some(ClaimTree(claims[managed[i].manager])))
    && (forall i, k | 0 <= i < k < |managed| :: managed[i].manager != managed[k].manager)
    && (forall m | m in claims :: exists i :: 0 <= i < |managed| && managed[i].manager == m)
  }

  /** The one ConfigBundle object behind the API server. */
  class ApiServer {
    var vals: Vals
    var claims: map<string, set<Slot>>

    constructor ()
      ensures Object() == State(map[], map[])
    {
      vals, claims := map[], map[];
    }

    function Object(): State
      reads this
    {
      State(vals, claims)
    }

    /** The decoded spec; the order of the server list is the server's choice. */
    method GetSpec() returns (spec: Trees.Fields, ghost order: seq<string>)
      ensures Enumerates(order, vals) && spec == SpecFields(vals, order)
    {
      var listed := ListServers(vals);
      order := listed;
      spec := SpecFields(vals, listed);
    }

    /** The decoded managedFields, in any order. */
    method GetManagedFields() returns (managed: seq<BowOut.Managed>)
      ensures Lists(managed, claims)
    {
      managed := [];
      var todo := claims.Keys;
      while todo != {}
        invariant todo <= claims.Keys
        invariant forall i | 0 <= i < |managed| ::
                    managed[i].manager in claims && managed[i].spec == Some(ClaimTree(claims[managed[i].manager]))
        invariant forall i | 0 <= i < |managed| :: managed[i].manager !in todo
        invariant forall i, k | 0 <= i < k < |managed| :: managed[i].manager != managed[k].manager
        invariant forall m | m in claims :: m in todo || exists i :: 0 <= i < |managed| && managed[i].manager == m
        decreases |todo|
      {
        var m :| m in todo;
        ghost var before := managed;
        managed := managed + [BowOut.Managed(m, Some(ClaimTree(claims[m])))];
        todo := todo - {m};
        assert managed[|before|].manager == m;
        forall x | x in claims && x !in todo && x != m
          ensures exists i :: 0 <= i < |managed| && managed[i].manager == x
        {
          var i :| 0 <= i < |before| && before[i].manager == x;
          assert managed[i].manager == x;
        }
      }
    }

    method Patch(manager: string, body: Trees.Fields, force: bool) returns (ok: bool)
      modifies this
      ensures var answer := Patched(old(Object()), manager, Flatten(body), force);
              ok == answer.Some? && Object() == if answer.Some? then answer.value else old(Object())
      ensures ok && !force && ClaimsBacked(old(Object())) ==> UntouchedOthers(old(Object()), Object(), manager)
      ensures ok ==> Owned(Object(), manager) == Flatten(body).Keys && forall p | p in Flatten(body) :: Get(vals, p) == Some(Flatten(body)[p])
      ensures !force && Contradicts(old(Object()), manager, Flatten(body)) ==> !ok && Object() == old(Object())
    {
      var stated := Flatten(body);
      if !force && Conflicts(Object(), manager, stated) {
        UnforcedIsRefusedIff(Object(), manager, stated);
        return false;
      }
      var next := Applied(Object(), manager, stated);
      if !Complete(next.vals) {
        return false;
      }
      AppliedOwned(Object(), manager, stated, manager);
      if !force {
        UnforcedIsRefusedIff(Object(), manager, stated);
        if ClaimsBacked(Object()) {
          UnforcedKeepsOthers(Object(), manager, stated);
        }
      }
      vals, claims := next.vals, next.claims;
      return true;
    }
  }
}
