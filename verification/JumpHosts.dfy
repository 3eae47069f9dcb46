/** Which profiles the editor offers as jump host (`jumpHostCandidates` in
    `src/components/SessionSidebar.tsx`). */
module JumpHosts {
  import opened Wrappers

  datatype Profile = Profile(id: string, isLocal: bool, proxyJumpId: Option<string>)

  /** Profile id to the id of the profile it connects through. */
  type Graph = map<string, string>

  // --- Chains of jump hosts ---

  /** The profile `k` hops along the chain of `s`, if the chain is that long. */
  function At(g: Graph, s: string, k: nat): Option<string> {
    if k == 0 then Some(s)
    else
      var before := At(g, s, k - 1);
      if before.Some? && before.value in g then Some(g[before.value]) else None
  }

  ghost predicate OnChain(g: Graph, s: string, target: string) {
    exists k: nat :: At(g, s, k) == Some(target)
  }

  ghost predicate OnCycle(g: Graph, s: string) {
    exists k: nat :: k > 0 && At(g, s, k) == Some(s)
  }

  ghost predicate Acyclic(g: Graph) {
    forall s :: !OnCycle(g, s)
  }

  lemma {:induction false} AtCompose(g: Graph, s: string, i: nat, j: nat, e: nat)
    requires At(g, s, i).Some? && e == i + j
    ensures At(g, s, e) == At(g, At(g, s, i).value, j)
  {
    if j > 0 {
      AtCompose(g, s, i, j - 1, e - 1);
    }
  }

  ghost predicate AgreeOff(g: Graph, h: Graph, f: string) {
    forall x | x != f :: (x in g <==> x in h) && (x in g ==> g[x] == h[x])
  }

  lemma {:induction false} SameUntil(g: Graph, h: Graph, f: string, s: string, k: nat)
    requires AgreeOff(g, h, f)
    requires forall j: nat | j < k :: At(g, s, j) != Some(f)
    ensures At(g, s, k) == At(h, s, k)
  {
    if k > 0 {
      SameUntil(g, h, f, s, k - 1);
    }
  }

  lemma {:induction false} FirstVisit(g: Graph, s: string, f: string, k: nat) returns (first: nat)
    requires At(g, s, k) == Some(f)
    ensures first <= k && At(g, s, first) == Some(f)
    ensures forall j: nat | j < first :: At(g, s, j) != Some(f)
  {
    if j: nat :| j < k && At(g, s, j) == Some(f) {
      first := FirstVisit(g, s, f, j);
    } else {
      first := k;
    }
  }

  // --- Saving a choice ---

  /** The graph once `f` is saved with the jump host `c`; the empty id means none. */
  function Save(g: Graph, f: string, c: string): Graph {
    if c == "" then g - {f} else g[f := c]
  }

  /** Whatever the graph, saving closes a cycle through the saved profile exactly when that
      profile was already on the chosen host's chain. */
  lemma SavingClosesACycle(g: Graph, f: string, c: string)
    requires c != ""
    ensures OnCycle(Save(g, f, c), f) <==> OnChain(g, c, f)
  {
    var h := Save(g, f, c);
    assert At(h, f, 0) == Some(f);
    assert At(h, f, 1) == Some(c);
    if OnChain(g, c, f) {
      var k: nat :| At(g, c, k) == Some(f);
      var first := FirstVisit(g, c, f, k);
      SameUntil(g, h, f, c, first);
      AtCompose(h, f, 1, first, first + 1);
    }
    if OnCycle(h, f) {
      var k: nat :| k > 0 && At(h, f, k) == Some(f);
      AtCompose(h, f, 1, k - 1, k);
      var first := FirstVisit(h, c, f, k - 1);
      SameUntil(h, g, f, c, first);
    }
  }

  lemma {:induction false} SubgraphChain(g: Graph, h: Graph, s: string, k: nat)
    requires forall x | x in h :: x in g && g[x] == h[x]
    ensures At(h, s, k).Some? ==> At(h, s, k) == At(g, s, k)
  {
    if k > 0 {
      SubgraphChain(g, h, s, k - 1);
    }
  }

  /** A cycle through anything after a save either was there before or goes through `f`. */
  lemma CycleIsOldOrThroughSaved(g: Graph, f: string, c: string, s: string)
    requires c != "" && OnCycle(Save(g, f, c), s)
    ensures OnCycle(g, s) || OnCycle(Save(g, f, c), f)
  {
    var h := Save(g, f, c);
    var k: nat :| k > 0 && At(h, s, k) == Some(s);
    if i: nat :| i < k && At(h, s, i) == Some(f) {
      AtCompose(h, s, k, i, k + i);
      AtCompose(h, s, i, k, k + i);
    } else {
      SameUntil(h, g, f, s, k);
    }
  }

  /** Saving a jump host keeps an acyclic graph acyclic exactly when the saved profile is not
      on that host's chain. */
  lemma SavingKeepsAcyclic(g: Graph, f: string, c: string)
    requires Acyclic(g)
    ensures Acyclic(Save(g, f, c)) <==> c == "" || !OnChain(g, c, f)
  {
    var h := Save(g, f, c);
    if c == "" {
      forall s ensures !OnCycle(h, s) {
        forall k: nat | k > 0 ensures At(h, s, k) != Some(s) {
          SubgraphChain(g, h, s, k);
          assert !OnCycle(g, s);
        }
      }
    } else {
      SavingClosesACycle(g, f, c);
      forall s | OnCycle(h, s) ensures OnChain(g, c, f) {
        CycleIsOldOrThroughSaved(g, f, c, s);
      }
    }
  }

  // --- The walk along a chain ---

  function ById(sessions: seq<Profile>): map<string, Profile> {
    if sessions == [] then map[]
    else
      var last := sessions[|sessions| - 1];
      ById(sessions[..|sessions| - 1])[last.id := last]
  }

  function Jumps(byId: map<string, Profile>): Graph {
    map id | id in byId && byId[id].proxyJumpId.Some? && byId[id].proxyJumpId.value != "" :: byId[id].proxyJumpId.value
  }

  /** The ids on the first `k` hops of a chain. */
  ghost function Visited(g: Graph, s: string, k: nat): set<string> {
    if k == 0 then {}
    else Visited(g, s, k - 1) + (if At(g, s, k - 1).Some? then {At(g, s, k - 1).value} else {})
  }

  lemma {:induction false} VisitedHas(g: Graph, s: string, k: nat, j: nat)
    requires j < k && At(g, s, j).Some?
    ensures At(g, s, j).value in Visited(g, s, k)
  {
    if j < k - 1 {
      VisitedHas(g, s, k - 1, j);
    }
  }

  lemma {:induction false} VisitedWhen(g: Graph, s: string, k: nat, x: string) returns (j: nat)
    requires x in Visited(g, s, k)
    ensures j < k && At(g, s, j) == Some(x)
  {
    if x in Visited(g, s, k - 1) {
      j := VisitedWhen(g, s, k - 1, x);
    } else {
      j := k - 1;
    }
  }

  /** A chain that ends, or comes back to where it has been, visits nothing new. */
  lemma {:induction false} NothingNew(g: Graph, s: string, k: nat, j: nat)
    requires At(g, s, k).None? || At(g, s, k).value in Visited(g, s, k)
    ensures At(g, s, j).None? || At(g, s, j).value in Visited(g, s, k)
  {
    if At(g, s, j).None? {
    } else if j < k {
      VisitedHas(g, s, k, j);
    } else if j > k {
      NothingNew(g, s, k, j - 1);
      var i := VisitedWhen(g, s, k, At(g, s, j - 1).value);
      assert At(g, s, i + 1) == At(g, s, j);
      if i + 1 < k {
        VisitedHas(g, s, k, i + 1);
      }
    }
  }

  /** The answer the walk should give. An empty form id is a new profile. */
  ghost predicate ReachesFormSpec(g: Graph, formId: string, startId: string) {
    formId != "" && startId != "" && OnChain(g, startId, formId)
  }

  lemma NotOnChain(g: Graph, s: string, target: string, k: nat)
    requires At(g, s, k).None? || At(g, s, k).value in Visited(g, s, k)
    requires target !in Visited(g, s, k)
    ensures !OnChain(g, s, target)
  {
    forall j: nat ensures At(g, s, j) != Some(target) {
      NothingNew(g, s, k, j);
    }
  }

  /** It ends on every graph, cyclic ones included. */
  method ReachesForm(byId: map<string, Profile>, formId: string, startId: string) returns (reached: bool)
    ensures reached <==> ReachesFormSpec(Jumps(byId), formId, startId)
  {
    ghost var g, k: nat := Jumps(byId), 0;
    var seen: set<string> := {};
    var current := Some(startId);
    while current.Some? && current.value != "" && current.value !in seen
      invariant seen == Visited(g, startId, k) && formId !in seen - {""}
      invariant startId == "" ==> current == Some("")
      invariant startId != "" ==> At(g, startId, k) == if current == Some("") then None else current
      invariant current.Some? ==> current.value in {startId, ""} + g.Values
      decreases {startId, ""} + g.Values - seen
    {
      if formId != "" && current.value == formId {
        return true;
      }
      seen := seen + {current.value};
      current := if current.value in byId then byId[current.value].proxyJumpId else None;
      k := k + 1;
    }
    if startId != "" && formId != "" {
      NotOnChain(g, startId, formId, k);
    }
    return false;
  }

  ghost function Candidates(sessions: seq<Profile>, all: seq<Profile>, formId: string): seq<Profile> {
    if sessions == [] then []
    else
      var n := |sessions| - 1;
      var p := sessions[n];
      Candidates(sessions[..n], all, formId)
      + if !p.isLocal && p.id != formId && !ReachesFormSpec(Jumps(ById(all)), formId, p.id) then [p] else []
  }

  method JumpHostCandidates(sessions: seq<Profile>, formId: string) returns (offered: seq<Profile>)
    ensures offered == Candidates(sessions, sessions, formId)
  {
    var byId := ById(sessions);
    offered := [];
    for i := 0 to |sessions|
      invariant offered == Candidates(sessions[..i], sessions, formId)
    {
      var p := sessions[i];
      var reached := ReachesForm(byId, formId, p.id);
      assert sessions[..i + 1][..i] == sessions[..i];
      if !p.isLocal && p.id != formId && !reached {
        offered := offered + [p];
      }
    }
    assert sessions[..|sessions|] == sessions;
  }

  lemma {:induction false} CandidatesAre(sessions: seq<Profile>, all: seq<Profile>, formId: string)
    ensures forall p :: p in Candidates(sessions, all, formId) <==>
      p in sessions && !p.isLocal && p.id != formId && !ReachesFormSpec(Jumps(ById(all)), formId, p.id)
  {
    if sessions != [] {
      CandidatesAre(sessions[..|sessions| - 1], all, formId);
      assert sessions == sessions[..|sessions| - 1] + [sessions[|sessions| - 1]];
    }
  }

  ghost predicate IsOffered(all: seq<Profile>, formId: string, p: Profile) {
    !p.isLocal && p.id != formId && !ReachesFormSpec(Jumps(ById(all)), formId, p.id)
  }

  /** `places` ascend, and are those of the SSH profiles whose chain does not reach the form. */
  ghost predicate PlacesOffered(sessions: seq<Profile>, all: seq<Profile>, formId: string, places: seq<nat>) {
    && (forall i, j | 0 <= i < j < |places| :: places[i] < places[j])
    && (forall k | k in places :: k < |sessions|)
    && (forall k: nat | k < |sessions| :: k in places <==> IsOffered(all, formId, sessions[k]))
  }

  /** The candidates are the profiles at those places, one by one: none is shown twice, and the
      order is that of the list. */
  lemma {:induction false} CandidatesInOrder(sessions: seq<Profile>, all: seq<Profile>, formId: string)
    returns (places: seq<nat>)
    ensures PlacesOffered(sessions, all, formId, places)
    ensures |Candidates(sessions, all, formId)| == |places|
    ensures forall i | 0 <= i < |places| :: places[i] < |sessions| && Candidates(sessions, all, formId)[i] == sessions[places[i]]
  {
    if sessions == [] {
      places := [];
    } else {
      var n := |sessions| - 1;
      var before := CandidatesInOrder(sessions[..n], all, formId);
      NextCandidate(sessions, all, formId);
      NextPlaces(sessions, all, formId, before);
      assert forall k | k in before :: k < n && sessions[..n][k] == sessions[k];
      hide Candidates, IsOffered;
      places := before + if IsOffered(all, formId, sessions[n]) then [n] else [];
      hide PlacesOffered;
    }
  }

  lemma NextPlaces(sessions: seq<Profile>, all: seq<Profile>, formId: string, before: seq<nat>)
    requires sessions != [] && PlacesOffered(sessions[..|sessions| - 1], all, formId, before)
    ensures var n := |sessions| - 1;
      PlacesOffered(sessions, all, formId, before + if IsOffered(all, formId, sessions[n]) then [n] else [])
  {
    hide IsOffered;
    var n := |sessions| - 1;
    assert forall i | 0 <= i < |before| :: before[i] in before;
    forall k: nat | k < n ensures k in before <==> IsOffered(all, formId, sessions[k]) {
      assert sessions[..n][k] == sessions[k];
    }
  }

  lemma NextCandidate(sessions: seq<Profile>, all: seq<Profile>, formId: string)
    requires sessions != []
    ensures var n := |sessions| - 1;
      Candidates(sessions, all, formId) ==
        Candidates(sessions[..n], all, formId) + if IsOffered(all, formId, sessions[n]) then [sessions[n]] else []
  {
  }

  // --- What is offered ---

  /** The profiles once the form is saved with the jump host `c`. */
  function Saved(sessions: seq<Profile>, f: string, c: string): (r: seq<Profile>)
    ensures |r| == |sessions|
  {
    if sessions == [] then []
    else
      var last := sessions[|sessions| - 1];
      Saved(sessions[..|sessions| - 1], f, c) + [if last.id == f then last.(proxyJumpId := Some(c)) else last]
  }

  ghost predicate SavedIn(before: map<string, Profile>, after: map<string, Profile>, f: string, c: string) {
    && after.Keys == before.Keys
    && forall id | id in before ::
         before[id].id == id && after[id] == if id == f then before[id].(proxyJumpId := Some(c)) else before[id]
  }

  lemma {:induction false} SavedById(sessions: seq<Profile>, f: string, c: string)
    ensures SavedIn(ById(sessions), ById(Saved(sessions, f, c)), f, c)
  {
    if sessions != [] {
      var n := |sessions| - 1;
      SavedById(sessions[..n], f, c);
      assert Saved(sessions, f, c)[..n] == Saved(sessions[..n], f, c);
      assert Saved(sessions, f, c)[n].id == sessions[n].id;
    }
  }

  lemma SavedGraph(sessions: seq<Profile>, f: string, c: string)
    requires f in ById(sessions)
    ensures Jumps(ById(Saved(sessions, f, c))) == Save(Jumps(ById(sessions)), f, c)
  {
    SavedById(sessions, f, c);
    hide ById, Saved;
  }

  /** Editing an existing profile while no jump chain is circular: an SSH profile other than
      the edited one is offered exactly when saving it as jump host leaves it that way. */
  lemma OfferedKeepsAcyclic(sessions: seq<Profile>, formId: string, p: Profile)
    requires formId != "" && formId in ById(sessions) && Acyclic(Jumps(ById(sessions)))
    requires p in sessions && !p.isLocal && p.id != formId
    ensures p in Candidates(sessions, sessions, formId) <==> Acyclic(Jumps(ById(Saved(sessions, formId, p.id))))
  {
    CandidatesAre(sessions, sessions, formId);
    SavedGraph(sessions, formId, p.id);
    hide Jumps, ById, Saved, Candidates;
    SavingKeepsAcyclic(Jumps(ById(sessions)), formId, p.id);
  }

  /** On any profiles, circular or not, what is left out would close a cycle through the
      edited profile and what is offered would not. */
  lemma LeftOutClosesACycle(sessions: seq<Profile>, formId: string, p: Profile)
    requires formId != "" && formId in ById(sessions)
    requires p in sessions && !p.isLocal && p.id != formId && p.id != ""
    ensures p !in Candidates(sessions, sessions, formId) <==> OnCycle(Jumps(ById(Saved(sessions, formId, p.id))), formId)
  {
    CandidatesAre(sessions, sessions, formId);
    SavedGraph(sessions, formId, p.id);
    hide Jumps, ById, Saved, Candidates;
    SavingClosesACycle(Jumps(ById(sessions)), formId, p.id);
  }

  /** A new profile gets an id nothing leads to yet, so whatever it is saved with, no cycle
      is closed; and every SSH profile is offered to it. */
  lemma NewProfileIsSafe(sessions: seq<Profile>, newId: string, p: Profile)
    requires newId !in Jumps(ById(sessions)).Values && p.id != newId && Acyclic(Jumps(ById(sessions)))
    ensures Acyclic(Save(Jumps(ById(sessions)), newId, p.id))
    ensures p in sessions && !p.isLocal && p.id != "" ==> p in Candidates(sessions, sessions, "")
  {
    var g := Jumps(ById(sessions));
    CandidatesAre(sessions, sessions, "");
    hide Jumps, ById, Candidates;
    forall k: nat ensures At(g, p.id, k) != Some(newId) {
      assert k > 0 && At(g, p.id, k).Some? ==> At(g, p.id, k).value in g.Values;
    }
    SavingKeepsAcyclic(g, newId, p.id);
  }

  // --- Which choices can be resolved ---

  /** The chain of `s` comes to a profile without a jump host, or to a missing one. */
  ghost predicate Ends(g: Graph, s: string) {
    exists k: nat :: At(g, s, k).None?
  }

  ghost predicate RunsIntoCycle(g: Graph, s: string) {
    exists k: nat :: At(g, s, k).Some? && OnCycle(g, At(g, s, k).value)
  }

  lemma {:induction false} NoneStays(g: Graph, s: string, k: nat, j: nat)
    requires k <= j && At(g, s, k).None?
    ensures At(g, s, j).None?
  {
    if k < j {
      NoneStays(g, s, k, j - 1);
    }
  }

  lemma {:induction false} CycleGoesOn(g: Graph, x: string, p: nat, k: nat)
    requires p > 0 && At(g, x, p) == Some(x)
    ensures At(g, x, k).Some?
    decreases k
  {
    if k < p {
      if At(g, x, k).None? {
        NoneStays(g, x, k, p);
      }
    } else {
      CycleGoesOn(g, x, p, k - p);
      AtCompose(g, x, p, k - p, k);
    }
  }

  lemma CycleNeverEnds(g: Graph, s: string)
    requires RunsIntoCycle(g, s)
    ensures !Ends(g, s)
  {
    var i: nat :| At(g, s, i).Some? && OnCycle(g, At(g, s, i).value);
    var x := At(g, s, i).value;
    var p: nat :| p > 0 && At(g, x, p) == Some(x);
    forall k: nat ensures At(g, s, k).Some? {
      if k < i {
        if At(g, s, k).None? {
          NoneStays(g, s, k, i);
        }
      } else {
        CycleGoesOn(g, x, p, k - i);
        AtCompose(g, s, i, k - i, k);
      }
    }
  }

  /** A chain on which no profile comes twice visits a new one with every hop. */
  lemma {:induction false} VisitsCount(g: Graph, s: string, k: nat)
    requires At(g, s, k).Some?
    requires forall j: nat | j < k && At(g, s, j).Some? :: At(g, s, j).value !in Visited(g, s, j)
    ensures |Visited(g, s, k)| == k && Visited(g, s, k) <= g.Keys
  {
    if k > 0 {
      VisitsCount(g, s, k - 1);
    }
  }

  /** A chain longer than there are profiles runs into a cycle. */
  lemma LongChainCycles(g: Graph, s: string, k: nat)
    requires k > |g.Keys| && At(g, s, k).Some?
    ensures RunsIntoCycle(g, s)
  {
    if j: nat :| j < k && At(g, s, j).Some? && At(g, s, j).value in Visited(g, s, j) {
      var i := VisitedWhen(g, s, j, At(g, s, j).value);
      AtCompose(g, s, i, j - i, j);
      assert OnCycle(g, At(g, s, i).value);
    } else {
      VisitsCount(g, s, k);
      SubsetCount(Visited(g, s, k), g.Keys);
    }
  }

  lemma {:induction false} SubsetCount(a: set<string>, b: set<string>)
    requires a <= b
    ensures |a| <= |b|
  {
    if x :| x in a {
      SubsetCount(a - {x}, b - {x});
    }
  }

  lemma EndsOrCycles(g: Graph, s: string)
    ensures Ends(g, s) <==> !RunsIntoCycle(g, s)
  {
    if RunsIntoCycle(g, s) {
      CycleNeverEnds(g, s);
    } else {
      var k := |g.Keys| + 1;
      if At(g, s, k).Some? {
        LongChainCycles(g, s, k);
      }
    }
  }

  /** Saved with the jump host `c`, the profile's chain ends exactly when the profile is not
      on `c`'s chain and that chain ends. */
  lemma SavedChainEnds(g: Graph, f: string, c: string)
    requires c != ""
    ensures Ends(Save(g, f, c), f) <==> !OnChain(g, c, f) && Ends(g, c)
  {
    var h := Save(g, f, c);
    assert At(h, f, 0) == Some(f) && At(h, f, 1) == Some(c);
    if OnChain(g, c, f) {
      SavingClosesACycle(g, f, c);
      assert RunsIntoCycle(h, f);
      CycleNeverEnds(h, f);
    } else {
      forall k: nat ensures At(h, f, k + 1) == At(g, c, k) {
        SameUntil(g, h, f, c, k);
        AtCompose(h, f, 1, k, k + 1);
      }
      if k: nat :| At(g, c, k).None? {
        assert At(h, f, k + 1).None?;
      }
      if k: nat :| At(h, f, k).None? {
        assert At(g, c, k - 1).None?;
      }
    }
  }

  /** On any profiles: saved with an SSH profile as jump host, the edited profile can be
      resolved exactly when that profile is offered and its own chain does not run into a
      cycle. What is left out never can be; what is offered need not be. */
  lemma ResolvableWhenOffered(sessions: seq<Profile>, formId: string, p: Profile)
    requires formId != "" && formId in ById(sessions)
    requires p in sessions && !p.isLocal && p.id != formId && p.id != ""
    ensures Ends(Jumps(ById(Saved(sessions, formId, p.id))), formId)
       <==> p in Candidates(sessions, sessions, formId) && !RunsIntoCycle(Jumps(ById(sessions)), p.id)
  {
    CandidatesAre(sessions, sessions, formId);
    SavedGraph(sessions, formId, p.id);
    hide Jumps, ById, Saved, Candidates;
    SavedChainEnds(Jumps(ById(sessions)), formId, p.id);
    EndsOrCycles(Jumps(ById(sessions)), p.id);
  }

  /** So all that is offered can be resolved exactly when no SSH profile's chain that avoids
      the edited profile runs into a cycle. */
  lemma AllOfferedResolve(sessions: seq<Profile>, formId: string)
    requires formId != "" && formId in ById(sessions)
    requires forall p | p in sessions :: p.id != ""
    ensures (forall p | p in Candidates(sessions, sessions, formId) :: Ends(Jumps(ById(Saved(sessions, formId, p.id))), formId))
       <==> !exists p :: p in sessions && !p.isLocal && !OnChain(Jumps(ById(sessions)), p.id, formId)
                         && RunsIntoCycle(Jumps(ById(sessions)), p.id)
  {
    var g := Jumps(ById(sessions));
    CandidatesAre(sessions, sessions, formId);
    assert At(g, formId, 0) == Some(formId);
    hide Jumps, ById, Saved, Candidates, RunsIntoCycle, Ends;
    forall p | p in sessions && !p.isLocal && p.id != formId
      ensures p in Candidates(sessions, sessions, formId) <==> !OnChain(g, p.id, formId)
      ensures Ends(Jumps(ById(Saved(sessions, formId, p.id))), formId)
         <==> p in Candidates(sessions, sessions, formId) && !RunsIntoCycle(g, p.id)
    {
      ResolvableWhenOffered(sessions, formId, p);
    }
    forall p | p in Candidates(sessions, sessions, formId)
      ensures p in sessions && !p.isLocal && p.id != formId && !OnChain(g, p.id, formId)
    {
    }
  }

  /** The backend's own test of a save (`ensure_no_jump_loop`): it refuses exactly the saves
      after which the profile's chain does not end. */
  method EnsureNoJumpLoop(g: Graph, profiles: nat, id: string) returns (ok: bool)
    requires profiles >= |g.Keys|
    ensures ok <==> Ends(g, id)
  {
    assert At(g, id, 0) == Some(id);
    var current := if id in g then Some(g[id]) else None;
    var steps := 0;
    while current.Some?
      invariant steps <= profiles + 1
      invariant current == At(g, id, steps + 1)
      decreases profiles + 1 - steps
    {
      var next := current.value;
      if next == id || steps > profiles {
        if next == id {
          assert OnCycle(g, At(g, id, 0).value);
        } else {
          LongChainCycles(g, id, steps + 1);
        }
        CycleNeverEnds(g, id);
        return false;
      }
      steps := steps + 1;
      current := if next in g then Some(g[next]) else None;
    }
    return true;
  }

  /** Profiles that are circular already come from importing an `ssh_config` in which two
      hosts jump through each other: the import saves without the test above. Each of the two
      is offered to any profile outside the cycle. */
  lemma CircularProfileIsOffered(a: Profile, b: Profile, f: Profile)
    requires a.id != b.id && f.id !in {a.id, b.id} && "" !in {a.id, b.id, f.id} && !a.isLocal
    requires a.proxyJumpId == Some(b.id) && b.proxyJumpId == Some(a.id)
    ensures a in Candidates([a, b, f], [a, b, f], f.id)
    ensures !Ends(Jumps(ById(Saved([a, b, f], f.id, a.id))), f.id)
  {
    var all := [a, b, f];
    var g := Jumps(ById(all));
    CircularGraph(a, b, f);
    CandidatesAre(all, all, f.id);
    hide Jumps, ById, Candidates;
    TwoCycle(g, a.id, b.id, f.id);
    assert a in all;
    hide RunsIntoCycle, Ends, OnChain;
    ResolvableWhenOffered(all, f.id, a);
  }

  lemma CircularGraph(a: Profile, b: Profile, f: Profile)
    requires a.id != b.id && f.id !in {a.id, b.id} && "" !in {a.id, b.id}
    requires a.proxyJumpId == Some(b.id) && b.proxyJumpId == Some(a.id)
    ensures var g := Jumps(ById([a, b, f]));
      f.id in ById([a, b, f]) && a.id in g && g[a.id] == b.id && b.id in g && g[b.id] == a.id
  {
    ByIdSnoc([], a);
    ByIdSnoc([a], b);
    ByIdSnoc([a, b], f);
    assert [a] + [b] == [a, b] && [a, b] + [f] == [a, b, f] && [] + [a] == [a];
    hide ById;
  }

  lemma TwoCycle(g: Graph, a: string, b: string, f: string)
    requires a in g && g[a] == b && b in g && g[b] == a && f !in {a, b}
    ensures RunsIntoCycle(g, a) && !OnChain(g, a, f)
  {
    forall k: nat ensures At(g, a, k) == Some(a) || At(g, a, k) == Some(b) {
      TwoCycleAt(g, a, b, k);
    }
    assert At(g, a, 0) == Some(a);
    assert At(g, a, 1) == Some(b);
    assert At(g, a, 2) == Some(a);
    assert OnCycle(g, a);
  }

  lemma ByIdSnoc(sessions: seq<Profile>, p: Profile)
    ensures ById(sessions + [p]) == ById(sessions)[p.id := p]
  {
    assert (sessions + [p])[..|sessions|] == sessions;
  }

  lemma {:induction false} TwoCycleAt(g: Graph, a: string, b: string, k: nat)
    requires a in g && g[a] == b && b in g && g[b] == a
    ensures At(g, a, k) == Some(a) || At(g, a, k) == Some(b)
  {
    if k > 0 {
      TwoCycleAt(g, a, b, k - 1);
    }
  }
}
