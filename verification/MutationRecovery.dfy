/** Recovering the mutations of other client groups. */
module MutationRecovery {
  import opened Wrappers

  type ClientID = nat
  type GroupID = nat

  /** `content` stands for the fields recovery never touches. */
  datatype ClientGroup = ClientGroup(
    mutationIDs: map<ClientID, int>, lastServerAckdMutationIDs: map<ClientID, int>, disabled: bool, content: int)

  datatype Entry = Entry(id: GroupID, group: ClientGroup)

  /** A client group map with its iteration order. */
  type Groups = seq<Entry>

  ghost predicate Distinct(gs: Groups) {
    forall i, j :: 0 <= i < j < |gs| ==> gs[i].id != gs[j].id
  }

  function Ids(gs: Groups): set<GroupID> {
    set i | 0 <= i < |gs| :: gs[i].id
  }

  /** The map with one existing record replaced, in the same place. */
  function WithGroup(gs: Groups, id: GroupID, group: ClientGroup): (r: Groups)
    ensures |r| == |gs|
  {
    seq(|gs|, i requires 0 <= i < |gs| => if gs[i].id == id then Entry(id, group) else gs[i])
  }

  function Find(gs: Groups, id: GroupID): (r: Option<ClientGroup>)
    ensures r.Some? ==> Entry(id, r.value) in gs
    ensures r.None? <==> id !in Ids(gs)
  {
    if gs == [] then None
    else if gs[0].id == id then assert id in Ids(gs) by { assert gs[0].id == id; } Some(gs[0].group)
    else
      var r := Find(gs[1..], id);
      assert forall x :: x in Ids(gs) <==> x == gs[0].id || x in Ids(gs[1..]) by { IdsOfTail(gs); }
      r
  }

  lemma IdsOfTail(gs: Groups)
    requires gs != []
    ensures forall x :: x in Ids(gs) <==> x == gs[0].id || x in Ids(gs[1..])
  {
    forall x ensures x in Ids(gs) <==> x == gs[0].id || x in Ids(gs[1..]) {
      if x in Ids(gs[1..]) {
        var i :| 0 <= i < |gs[1..]| && gs[1..][i].id == x;
        assert gs[i + 1].id == x;
      }
      if x in Ids(gs) {
        var i :| 0 <= i < |gs| && gs[i].id == x;
        assert i > 0 ==> gs[1..][i - 1].id == x;
      }
    }
  }

  // ---------- acknowledgements ----------

  function AckOf(acks: map<ClientID, int>, c: ClientID): int {
    if c in acks then acks[c] else 0
  }

  /** The check that ends recovery of a group early.  A missing acknowledgement and one of zero both count as not
    * acknowledged. */
  predicate AllAckd(g: ClientGroup) {
    forall c :: c in g.mutationIDs ==>
      AckOf(g.lastServerAckdMutationIDs, c) != 0 && g.mutationIDs[c] <= AckOf(g.lastServerAckdMutationIDs, c)
  }

  predicate Raises(acks: map<ClientID, int>, changes: map<ClientID, int>, c: ClientID) {
    c in changes && AckOf(acks, c) < changes[c]
  }

  /** The acknowledgements with the server's changes that raise one. */
  function Merged(acks: map<ClientID, int>, changes: map<ClientID, int>): map<ClientID, int> {
    acks + map c | c in changes && Raises(acks, changes, c) :: changes[c]
  }

  function Larger(acks: map<ClientID, int>, changes: map<ClientID, int>, c: ClientID): int {
    if c in changes && changes[c] > AckOf(acks, c) then changes[c] else AckOf(acks, c)
  }

  /** Merging takes the larger of both, so it never lowers an acknowledgement or forgets one. */
  lemma MergeTakesTheLarger(acks: map<ClientID, int>, changes: map<ClientID, int>, c: ClientID)
    ensures AckOf(Merged(acks, changes), c) == Larger(acks, changes, c)
    ensures c in acks ==> c in Merged(acks, changes) && acks[c] <= Merged(acks, changes)[c]
  {
  }

  /** A recovered group is not recovered again if and only if every client's mutations are confirmed by the old or the
    * new acknowledgement, and that is not zero: a client without mutations and without a server record keeps its group
    * coming back. */
  lemma RecoveredGroupIsAckd(g: ClientGroup, changes: map<ClientID, int>)
    ensures AllAckd(g.(lastServerAckdMutationIDs := Merged(g.lastServerAckdMutationIDs, changes)))
       <==> forall c :: c in g.mutationIDs ==>
              var ack := Larger(g.lastServerAckdMutationIDs, changes, c); ack != 0 && g.mutationIDs[c] <= ack
  {
    forall c | c in g.mutationIDs {
      MergeTakesTheLarger(g.lastServerAckdMutationIDs, changes, c);
    }
  }

  /** The smallest such group: one client with mutation number zero and no record, whatever the server reports that is
    * not positive. */
  lemma ClientWithoutMutationsComesBack(g: ClientGroup, c: ClientID, changes: map<ClientID, int>)
    requires g.mutationIDs == map[c := 0] && g.lastServerAckdMutationIDs == map[] && (c in changes ==> changes[c] <= 0)
    ensures !AllAckd(g.(lastServerAckdMutationIDs := Merged(g.lastServerAckdMutationIDs, changes)))
  {
    RecoveredGroupIsAckd(g, changes);
    assert c in g.mutationIDs;
  }

  // ---------- the persisted groups ----------

  /** One write transaction of the recovering client, on the group `id`. */
  datatype Write = Write(before: Groups, after: Groups, id: GroupID)

  /** What a write may do: change the record of one group of another client group, without lowering or forgetting an
    * acknowledgement, enabling a disabled group or touching the rest of the record. */
  ghost predicate WriteOk(self: GroupID, w: Write) {
    && w.id != self && |w.after| == |w.before|
    && forall i :: 0 <= i < |w.before| ==> w.after[i].id == w.before[i].id && RecordOk(w.id, w.before[i], w.after[i])
  }

  ghost predicate RecordOk(id: GroupID, before: Entry, after: Entry) {
    if before.id != id then after == before
    else
      && after.group.mutationIDs == before.group.mutationIDs && after.group.content == before.group.content
      && (before.group.disabled ==> after.group.disabled)
      && forall c :: c in before.group.lastServerAckdMutationIDs ==>
           c in after.group.lastServerAckdMutationIDs
           && before.group.lastServerAckdMutationIDs[c] <= after.group.lastServerAckdMutationIDs[c]
  }

  /** The map after the final transaction of a recovery. */
  function AcksUpdated(gs: Groups, id: GroupID, changes: map<ClientID, int>): Groups {
    var found := Find(gs, id);
    if found.None? then gs
    else WithGroup(gs, id,
      found.value.(lastServerAckdMutationIDs := Merged(found.value.lastServerAckdMutationIDs, changes)))
  }

  predicate AckRises(gs: Groups, id: GroupID, changes: map<ClientID, int>, c: ClientID) {
    Find(gs, id).Some? && Raises(Find(gs, id).value.lastServerAckdMutationIDs, changes, c)
  }

  function Disabled(gs: Groups, id: GroupID): Groups {
    var found := Find(gs, id);
    if found.None? then gs else WithGroup(gs, id, found.value.(disabled := true))
  }

  lemma {:induction false} FindInReplaced(gs: Groups, id: GroupID, group: ClientGroup, other: GroupID)
    ensures Find(WithGroup(gs, id, group), other)
      == if other == id && Find(gs, id).Some? then Some(group) else Find(gs, other)
  {
    if gs != [] {
      var after := WithGroup(gs, id, group);
      assert after[1..] == WithGroup(gs[1..], id, group);
      FindInReplaced(gs[1..], id, group, other);
      if gs[0].id != id && other == id { FindInReplaced(gs[1..], id, group, id); }
    }
  }

  /** No other group has changed; this one, if it exists, has the larger of its old and the server's acknowledgements
    * for every client, and is the same otherwise. */
  ghost predicate AcksRaised(gs: Groups, after: Groups, id: GroupID, changes: map<ClientID, int>) {
    && (forall other :: other != id ==> Find(after, other) == Find(gs, other))
    && (Find(after, id).Some? <==> Find(gs, id).Some?)
    && (Find(gs, id).Some? ==>
          var g, g' := Find(gs, id).value, Find(after, id).value;
          && g'.mutationIDs == g.mutationIDs && g'.disabled == g.disabled && g'.content == g.content
          && forall c :: AckOf(g'.lastServerAckdMutationIDs, c) == Larger(g.lastServerAckdMutationIDs, changes, c))
  }

  lemma UpdatedAcks(gs: Groups, id: GroupID, changes: map<ClientID, int>)
    ensures AcksRaised(gs, AcksUpdated(gs, id, changes), id, changes)
  {
    hide WithGroup, Find;
    var found := Find(gs, id);
    if found.Some? {
      var acks := found.value.lastServerAckdMutationIDs;
      var group := found.value.(lastServerAckdMutationIDs := Merged(acks, changes));
      forall other
        ensures Find(WithGroup(gs, id, group), other) == if other == id then Some(group) else Find(gs, other)
      {
        FindInReplaced(gs, id, group, other);
      }
      forall c ensures AckOf(Merged(acks, changes), c) == Larger(acks, changes, c) {
        MergeTakesTheLarger(acks, changes, c);
      }
    }
  }

  /** No other group has changed; this one, if it exists, is disabled, and is the same otherwise. */
  ghost predicate OnlyDisabled(gs: Groups, after: Groups, id: GroupID) {
    && (forall other :: other != id ==> Find(after, other) == Find(gs, other))
    && (Find(after, id).Some? <==> Find(gs, id).Some?)
    && (Find(gs, id).Some? ==> Find(after, id).value == Find(gs, id).value.(disabled := true))
  }

  lemma DisabledGroup(gs: Groups, id: GroupID)
    ensures OnlyDisabled(gs, Disabled(gs, id), id)
  {
    hide WithGroup, Find;
    var found := Find(gs, id);
    if found.Some? {
      var group := found.value.(disabled := true);
      forall other
        ensures Find(WithGroup(gs, id, group), other) == if other == id then Some(group) else Find(gs, other)
      {
        FindInReplaced(gs, id, group, other);
      }
    }
  }

  lemma WithSameGroup(gs: Groups, id: GroupID, group: ClientGroup)
    requires Distinct(gs) && Entry(id, group) in gs
    ensures WithGroup(gs, id, group) == gs
  {
  }

  datatype PushResult = PushOk | PushFailed | PushDisables

  datatype PullResult = PullOk(lastMutationIDChanges: map<ClientID, int>) | PullFailed | PullDisables

  /** How the network and the configuration answer one recovery. */
  datatype Remote = Remote(pushDisabled: bool, push: PushResult, pullDisabled: bool, pull: PullResult, throws: bool)

  class Perdag {
    var groups: Groups
    ghost var writes: seq<Write>

    /** Other clients change the map while this one waits. */
    method Meanwhile(others: Groups -> Groups)
      modifies this`groups
      ensures groups == others(old(groups))
    {
      groups := others(groups);
    }

    method SetGroup(id: GroupID, group: ClientGroup)
      modifies this
      ensures groups == WithGroup(old(groups), id, group)
      ensures writes == old(writes) + [Write(old(groups), groups, id)]
    {
      ghost var before := groups;
      groups := WithGroup(groups, id, group);
      writes := writes + [Write(before, groups, id)];
    }

    /** `disableClientGroup`. */
    method Disable(id: GroupID, ghost self: GroupID)
      requires id != self && Distinct(groups)
      modifies this
      ensures groups == Disabled(old(groups), id)
      ensures OnlyDisabled(old(groups), groups, id)
      ensures Distinct(groups) && Ids(groups) == Ids(old(groups))
      ensures old(writes) <= writes && forall w :: w in writes[|old(writes)|..] ==> WriteOk(self, w)
    {
      DisabledGroup(groups, id);
      hide OnlyDisabled;
      var found := Find(groups, id);
      if found.Some? {
        ReplacingIsOk(groups, id, found.value.(disabled := true), self);
        SetGroup(id, found.value.(disabled := true));
      }
    }

    /** The server's changes that raise an acknowledgement. */
    static method RisingAcks(acks: map<ClientID, int>, changes: map<ClientID, int>)
      returns (updates: map<ClientID, int>, any: bool)
      ensures updates == map c | c in changes && Raises(acks, changes, c) :: changes[c]
      ensures if any then exists c :: c in changes && Raises(acks, changes, c) else updates == map[]
    {
      updates, any := map[], false;
      var todo := changes.Keys;
      while todo != {}
        invariant todo <= changes.Keys
        invariant updates == map c | c in changes && c !in todo && Raises(acks, changes, c) :: changes[c]
        invariant if any then exists c :: c in changes && Raises(acks, changes, c) else updates == map[]
        decreases todo
      {
        var c :| c in todo;
        todo := todo - {c};
        if AckOf(acks, c) < changes[c] {
          updates, any := updates[c := changes[c]], true;
        }
      }
    }

    /** The final transaction: the acknowledgements are raised to what the pull reported. */
    method UpdateAcks(id: GroupID, changes: map<ClientID, int>, ghost self: GroupID) returns (result: Groups)
      requires id != self && Distinct(groups)
      modifies this
      ensures groups == AcksUpdated(old(groups), id, changes) && result == groups
      ensures AcksRaised(old(groups), groups, id, changes)
      ensures writes == old(writes) || exists c :: AckRises(old(groups), id, changes, c)
      ensures Distinct(groups) && Ids(groups) == Ids(old(groups))
      ensures old(writes) <= writes && forall w :: w in writes[|old(writes)|..] ==> WriteOk(self, w)
    {
      UpdatedAcks(groups, id, changes);
      hide WriteOk, Ids, Distinct, WithGroup, AcksRaised, Find;
      var found := Find(groups, id);
      if found.None? {
        return groups;
      }
      var group := found.value;
      UniqueRecord(groups, id, group);
      var acks := group.lastServerAckdMutationIDs;
      var updates, any := RisingAcks(acks, changes);
      assert acks + updates == Merged(acks, changes);
      var updated := group.(lastServerAckdMutationIDs := acks + updates);
      if !any {
        assert acks + updates == acks && updated == group;
        WithSameGroup(groups, id, group);
        return groups;
      }
      ghost var c :| c in changes && Raises(acks, changes, c);
      assert AckRises(groups, id, changes, c);
      ReplacingIsOk(groups, id, updated, self);
      SetGroup(id, updated);
      return groups;
    }
  }

  lemma UniqueRecord(gs: Groups, id: GroupID, group: ClientGroup)
    requires Distinct(gs) && Entry(id, group) in gs
    ensures forall g :: Entry(id, g) in gs ==> g == group
  {
  }

  /** Replacing a group's record by one that keeps its acknowledgements is an allowed write. */
  lemma ReplacingIsOk(gs: Groups, id: GroupID, group: ClientGroup, self: GroupID)
    requires Distinct(gs) && id != self && id in Ids(gs)
    requires forall g :: Entry(id, g) in gs ==> RecordOk(id, Entry(id, g), Entry(id, group))
    ensures WriteOk(self, Write(gs, WithGroup(gs, id, group), id))
    ensures Distinct(WithGroup(gs, id, group)) && Ids(WithGroup(gs, id, group)) == Ids(gs)
    ensures Entry(id, group) in WithGroup(gs, id, group)
  {
    var after := WithGroup(gs, id, group);
    forall i | 0 <= i < |gs| ensures after[i].id == gs[i].id && RecordOk(id, gs[i], after[i]) {
      assert gs[i] == Entry(gs[i].id, gs[i].group) && gs[i] in gs;
    }
    var i :| 0 <= i < |gs| && gs[i].id == id;
    assert after[i] == Entry(id, group);
  }

  // ---------- recovering one group ----------

  /** What other clients do keeps client group maps well formed and within a finite set of identities. */
  ghost predicate OthersOk(others: Groups -> Groups, universe: set<GroupID>) {
    forall gs :: Distinct(gs) && Ids(gs) <= universe ==> Distinct(others(gs)) && Ids(others(gs)) <= universe
  }

  /** There may be mutations to recover: the group is another one, not disabled, and not fully acknowledged. */
  predicate ToRecover(group: ClientGroup, id: GroupID, self: GroupID) {
    id != self && !AllAckd(group) && !group.disabled
  }

  /** Push and pull both succeed. */
  predicate Succeeds(remote: Remote) {
    !remote.pushDisabled && remote.push.PushOk? && !remote.pullDisabled && remote.pull.PullOk? && !remote.throws
  }

  /** The first answer that is not a success says that the server will not take the group. */
  predicate Disables(remote: Remote) {
    && !remote.pushDisabled
    && (remote.push.PushDisables? || (remote.push.PushOk? && !remote.pullDisabled && remote.pull.PullDisables?))
  }

  /** One recovery that took place: the record it was given, the answers it got, and the map before and after. */
  datatype Recovery = Recovery(id: GroupID, group: ClientGroup, remote: Remote, before: Groups, after: Groups)

  /** What a recovery does to the map, besides what others do meanwhile: nothing if there is nothing to recover or it
    * fails; otherwise it raises the group's acknowledgements to those the server reports, or disables the group. */
  ghost predicate RecoveryOk(r: Recovery, self: GroupID, others: Groups -> Groups) {
    if !ToRecover(r.group, r.id, self) then r.after == r.before
    else
      var seen := others(r.before);
      if Succeeds(r.remote) then AcksRaised(seen, r.after, r.id, r.remote.pull.lastMutationIDChanges)
      else if Disables(r.remote) then OnlyDisabled(seen, r.after, r.id)
      else r.after == seen
  }

  /** Returns the client groups as they are after a successful recovery, and nothing otherwise. */
  method RecoverClientGroup(group: ClientGroup, id: GroupID, self: GroupID, perdag: Perdag, remote: Remote,
                            others: Groups -> Groups, ghost universe: set<GroupID>) returns (result: Option<Groups>)
    requires Distinct(perdag.groups) && Ids(perdag.groups) <= universe && OthersOk(others, universe)
    modifies perdag
    ensures Distinct(perdag.groups) && Ids(perdag.groups) <= universe
    ensures result.Some? <==>
      !(id == self || AllAckd(group) || group.disabled)
      && !remote.pushDisabled && remote.push.PushOk? && !remote.pullDisabled && remote.pull.PullOk? && !remote.throws
    ensures result.Some? <==> ToRecover(group, id, self) && Succeeds(remote)
    ensures result.Some? ==>
      result.value == perdag.groups == AcksUpdated(others(old(perdag.groups)), id, remote.pull.lastMutationIDChanges)
    ensures result.None? ==>
      perdag.groups in {old(perdag.groups), others(old(perdag.groups)), Disabled(others(old(perdag.groups)), id)}
    ensures RecoveryOk(Recovery(id, group, remote, old(perdag.groups), perdag.groups), self, others)
    ensures old(perdag.writes) <= perdag.writes
    ensures forall w :: w in perdag.writes[|old(perdag.writes)|..] ==> WriteOk(self, w)
    ensures id == self || AllAckd(group) || group.disabled ==>
      result.None? && perdag.groups == old(perdag.groups) && perdag.writes == old(perdag.writes)
  {
    hide AcksRaised, OnlyDisabled;
    if id == self {
      return None;
    }
    if AllAckd(group) {
      return None;
    }
    if group.disabled {
      return None;
    }
    perdag.Meanwhile(others);
    if remote.pushDisabled {
      return None;
    }
    if remote.push.PushDisables? {
      perdag.Disable(id, self);
      return None;
    }
    if remote.push.PushFailed? {
      return None;
    }
    if remote.pullDisabled {
      return None;
    }
    if remote.pull.PullDisables? {
      perdag.Disable(id, self);
      return None;
    }
    if remote.pull.PullFailed? || remote.throws {
      return None;
    }
    var groups := perdag.UpdateAcks(id, remote.pull.lastMutationIDChanges, self);
    return Some(groups);
  }

  // ---------- the visit loop ----------

  ghost predicate NoDuplicates(ids: seq<GroupID>) {
    forall i, j :: 0 <= i < j < |ids| ==> ids[i] != ids[j]
  }

  /** The map that the `n`-th visit read its record from: as the last successful recovery before it left it. */
  ghost function ReadBy(recoveries: seq<Recovery>, self: GroupID, first: Groups, n: nat): Groups
    requires n <= |recoveries|
  {
    if n == 0 then first
    else
      var r := recoveries[n - 1];
      if ToRecover(r.group, r.id, self) && Succeeds(r.remote) then r.after else ReadBy(recoveries, self, first, n - 1)
  }

  ghost predicate IsFirstUnvisited(read: Groups, visited: seq<GroupID>, entry: Entry) {
    entry.id !in visited
    && exists i :: 0 <= i < |read| && read[i] == entry && forall j :: 0 <= j < i ==> read[j].id in visited
  }

  /** The `n`-th recovery is of the first group that had not been visited in the map read last, starts from the map as
    * the recovery before left it, and does what a recovery does. */
  ghost predicate RecoveryAt(recoveries: seq<Recovery>, n: nat, self: GroupID, first: Groups, visited: seq<GroupID>,
                             remote: Remote, others: Groups -> Groups)
    requires n < |recoveries| == |visited|
  {
    var r := recoveries[n];
    && r.id == visited[n] && r.remote == remote
    && r.before == (if n == 0 then first else recoveries[n - 1].after)
    && IsFirstUnvisited(ReadBy(recoveries, self, first, n), visited[..n], Entry(r.id, r.group))
    && RecoveryOk(r, self, others)
  }

  ghost predicate RecoveriesOk(recoveries: seq<Recovery>, self: GroupID, first: Groups, last: Groups,
                               visited: seq<GroupID>, remotes: nat -> Remote, others: nat -> Groups -> Groups)
  {
    && |recoveries| == |visited|
    && (forall n: nat :: n < |recoveries| ==>
          RecoveryAt(recoveries, n, self, first, visited, remotes(n), others(n)))
    && last == if recoveries == [] then first else recoveries[|recoveries| - 1].after
  }

  lemma {:induction false} ReadByLonger(recoveries: seq<Recovery>, r: Recovery, self: GroupID, first: Groups, n: nat)
    requires n <= |recoveries|
    ensures ReadBy(recoveries + [r], self, first, n) == ReadBy(recoveries, self, first, n)
  {
    if n > 0 { ReadByLonger(recoveries, r, self, first, n - 1); }
  }

  lemma OneMoreRecovery(recoveries: seq<Recovery>, r: Recovery, self: GroupID, first: Groups, visited: seq<GroupID>,
                        remotes: nat -> Remote, others: nat -> Groups -> Groups)
    requires RecoveriesOk(recoveries, self, first, r.before, visited, remotes, others)
    requires r.remote == remotes(|visited|) && RecoveryOk(r, self, others(|visited|))
    requires IsFirstUnvisited(ReadBy(recoveries, self, first, |recoveries|), visited, Entry(r.id, r.group))
    ensures RecoveriesOk(recoveries + [r], self, first, r.after, visited + [r.id], remotes, others)
  {
    hide RecoveryOk, IsFirstUnvisited;
    var longer, all := recoveries + [r], visited + [r.id];
    forall n: nat | n < |longer| ensures RecoveryAt(longer, n, self, first, all, remotes(n), others(n)) {
      ReadByLonger(recoveries, r, self, first, n);
      assert all[..n] == visited[..n];
      if n < |recoveries| {
        assert RecoveryAt(recoveries, n, self, first, visited, remotes(n), others(n));
      } else {
        assert visited[..n] == visited;
      }
    }
  }

  /** Recovers the groups of one database, starting over on the refreshed map after each successful recovery.  The
    * `n`-th group visited is answered by `remotes(n)` and meets the interference `others(n)`; `closed(n)` says that the
    * client is closed before it.  `visited` lists the visited groups in order, and `recoveries` what was done for each:
    * the map changes in no other way. */
  method RecoverFromPerdag(perdag: Perdag, self: GroupID, remotes: nat -> Remote, others: nat -> Groups -> Groups,
                           closed: nat -> bool, ghost universe: set<GroupID>)
    returns (visited: seq<GroupID>, ghost recoveries: seq<Recovery>, exitedEarly: bool)
    requires Distinct(perdag.groups) && Ids(perdag.groups) <= universe && forall n :: OthersOk(others(n), universe)
    modifies perdag
    ensures NoDuplicates(visited) && forall id :: id in visited ==> id in universe
    ensures RecoveriesOk(recoveries, self, old(perdag.groups), perdag.groups, visited, remotes, others)
    ensures !exitedEarly ==>
      forall id :: id in Ids(ReadBy(recoveries, self, old(perdag.groups), |recoveries|)) ==> id in visited
    ensures exitedEarly ==> closed(|visited|)
    ensures forall n: nat :: n < |visited| ==> !closed(n)
    ensures old(perdag.writes) <= perdag.writes
    ensures forall w :: w in perdag.writes[|old(perdag.writes)|..] ==> WriteOk(self, w)
  {
    hide Ids, Distinct, WriteOk, OthersOk, RecoveriesOk, RecoveryOk, ToRecover, Succeeds, AllAckd;
    ghost var first := perdag.groups;
    var clientGroups := Some(perdag.groups);
    visited, recoveries, exitedEarly := [], [], false;
    assert RecoveriesOk([], self, first, first, [], remotes, others) by { NoRecoveries(self, first, remotes, others); }
    ghost var unvisited := universe;
    while clientGroups.Some?
      invariant Distinct(perdag.groups) && Ids(perdag.groups) <= universe
      invariant NoDuplicates(visited) && unvisited == universe - (set id | id in visited)
      invariant forall id :: id in visited ==> id in universe
      invariant |recoveries| == |visited|
      invariant RecoveriesOk(recoveries, self, first, perdag.groups, visited, remotes, others)
      invariant forall n: nat :: n < |visited| ==> !closed(n)
      invariant clientGroups.Some? ==>
        Ids(clientGroups.value) <= universe && clientGroups.value == ReadBy(recoveries, self, first, |recoveries|)
      invariant clientGroups.None? ==>
        forall id :: id in Ids(ReadBy(recoveries, self, first, |recoveries|)) ==> id in visited
      invariant old(perdag.writes) <= perdag.writes
      invariant forall w :: w in perdag.writes[|old(perdag.writes)|..] ==> WriteOk(self, w)
      decreases unvisited, clientGroups.Some?
    {
      var newClientGroups: Option<Groups> := None;
      ghost var unvisitedBefore := unvisited;
      var i := 0;
      while i < |clientGroups.value| && newClientGroups.None?
        invariant i <= |clientGroups.value|
        invariant Distinct(perdag.groups) && Ids(perdag.groups) <= universe
        invariant NoDuplicates(visited) && unvisited == universe - (set id | id in visited)
        invariant forall id :: id in visited ==> id in universe
        invariant unvisited <= unvisitedBefore && (newClientGroups.Some? ==> unvisited < unvisitedBefore)
        invariant forall j :: 0 <= j < i ==> clientGroups.value[j].id in visited
        invariant |recoveries| == |visited|
        invariant RecoveriesOk(recoveries, self, first, perdag.groups, visited, remotes, others)
        invariant forall n: nat :: n < |visited| ==> !closed(n)
        invariant ReadBy(recoveries, self, first, |recoveries|)
               == if newClientGroups.Some? then newClientGroups.value else clientGroups.value
        invariant newClientGroups.Some? ==> newClientGroups.value == perdag.groups
        invariant old(perdag.writes) <= perdag.writes
        invariant forall w :: w in perdag.writes[|old(perdag.writes)|..] ==> WriteOk(self, w)
        decreases |clientGroups.value| - i
      {
        var entry := clientGroups.value[i];
        if closed(|visited|) {
          exitedEarly := true;
          return;
        }
        if entry.id !in visited {
          IdOfEntry(clientGroups.value, i);
          var n := |visited|;
          assert IsFirstUnvisited(clientGroups.value, visited, entry);
          ghost var before := perdag.groups;
          newClientGroups := RecoverClientGroup(entry.group, entry.id, self, perdag, remotes(n), others(n), universe);
          ghost var r := Recovery(entry.id, entry.group, remotes(n), before, perdag.groups);
          OneMoreRecovery(recoveries, r, self, first, visited, remotes, others);
          ReadByLonger(recoveries, r, self, first, |recoveries|);
          visited, recoveries := visited + [entry.id], recoveries + [r];
          unvisited := unvisited - {entry.id};
        }
        i := i + 1;
      }
      if newClientGroups.None? {
        AllIdsVisited(clientGroups.value, visited);
      }
      clientGroups := newClientGroups;
    }
  }

  lemma NoRecoveries(self: GroupID, first: Groups, remotes: nat -> Remote, others: nat -> Groups -> Groups)
    ensures RecoveriesOk([], self, first, first, [], remotes, others)
  {
  }

  lemma IdOfEntry(gs: Groups, i: nat)
    requires i < |gs|
    ensures gs[i].id in Ids(gs)
  {
  }

  lemma AllIdsVisited(gs: Groups, visited: seq<GroupID>)
    requires forall j :: 0 <= j < |gs| ==> gs[j].id in visited
    ensures forall id :: id in Ids(gs) ==> id in visited
  {
  }

  // ---------- what the recovered groups have afterwards ----------

  ghost predicate AckedUpTo(gs: Groups, id: GroupID, c: ClientID, ack: int) {
    Find(gs, id).Some? && AckOf(Find(gs, id).value.lastServerAckdMutationIDs, c) >= ack
  }

  /** Other clients remove no group and lower no acknowledgement. */
  ghost predicate KeepsAcks(others: Groups -> Groups) {
    forall gs, id, c, ack :: AckedUpTo(gs, id, c, ack) ==> AckedUpTo(others(gs), id, c, ack)
  }

  lemma RecoveryKeepsAcks(r: Recovery, self: GroupID, others: Groups -> Groups, id: GroupID, c: ClientID, ack: int)
    requires RecoveryOk(r, self, others) && KeepsAcks(others) && AckedUpTo(r.before, id, c, ack)
    ensures AckedUpTo(r.after, id, c, ack)
  {
    assert AckedUpTo(others(r.before), id, c, ack);
  }

  lemma {:induction false} AcksLast(recoveries: seq<Recovery>, self: GroupID, first: Groups, last: Groups,
                                    visited: seq<GroupID>, remotes: nat -> Remote, others: nat -> Groups -> Groups,
                                    n: nat, m: nat, c: ClientID, ack: int)
    requires RecoveriesOk(recoveries, self, first, last, visited, remotes, others) && n <= m < |recoveries|
    requires forall k: nat :: n < k <= m ==> KeepsAcks(others(k))
    requires AckedUpTo(recoveries[n].after, recoveries[n].id, c, ack)
    ensures AckedUpTo(recoveries[m].after, recoveries[n].id, c, ack)
    decreases m - n
  {
    hide RecoveryOk, KeepsAcks, AckedUpTo;
    if n < m {
      AcksLast(recoveries, self, first, last, visited, remotes, others, n, m - 1, c, ack);
      assert RecoveryAt(recoveries, m, self, first, visited, remotes(m), others(m));
      RecoveryKeepsAcks(recoveries[m], self, others(m), recoveries[n].id, c, ack);
    }
  }

  /** Every visited group that had mutations to recover, and for which push and pull succeeded, has afterwards at least
    * the acknowledgement that the server reported, for every client it reported, unless others removed the group
    * meanwhile; and it still has it at the end if others keep what they find. */
  lemma RecoveredGroupsAreAcked(recoveries: seq<Recovery>, self: GroupID, first: Groups, last: Groups,
                                visited: seq<GroupID>, remotes: nat -> Remote, others: nat -> Groups -> Groups,
                                n: nat, c: ClientID)
    requires RecoveriesOk(recoveries, self, first, last, visited, remotes, others) && n < |recoveries|
    requires ToRecover(recoveries[n].group, visited[n], self) && Succeeds(remotes(n))
    requires c in remotes(n).pull.lastMutationIDChanges && Find(others(n)(recoveries[n].before), visited[n]).Some?
    ensures AckedUpTo(recoveries[n].after, visited[n], c, remotes(n).pull.lastMutationIDChanges[c])
    ensures (forall k: nat :: n < k < |recoveries| ==> KeepsAcks(others(k))) ==>
      AckedUpTo(last, visited[n], c, remotes(n).pull.lastMutationIDChanges[c])
  {
    assert RecoveryAt(recoveries, n, self, first, visited, remotes(n), others(n));
    var ack := remotes(n).pull.lastMutationIDChanges[c];
    assert AckedUpTo(recoveries[n].after, visited[n], c, ack);
    if forall k: nat :: n < k < |recoveries| ==> KeepsAcks(others(k)) {
      AcksLast(recoveries, self, first, last, visited, remotes, others, n, |recoveries| - 1, c, ack);
    }
  }
}
