/**
  Several patches of one TypeScript snapshot.

  Object.assign never removes a key from the snapshot, so after a deletion the snapshot
  has keys the server has lost.  The theorem says exactly which later edits still come
  across, and Session follows server and snapshot over any number of edits.
 */
module TypeScriptSession {
  import opened Json
  import opened Delta
  import opened TypeScriptPatch

  /**
    Field k does not come across when the snapshot may have kept deleted keys.  A kept key
    that is written again needs a value that shares nothing with the one it had.
   */
  predicate Stuck(snapshot: Record, server: Record, new_: Record, k: string)
  {
    if k in server.fields || k !in snapshot.fields then Unsendable(server, new_, k)
    else
      k in new_.fields &&
      var vOld, vNew := snapshot.fields[k], new_.fields[k];
      k == PROTO || vNew.Null? ||
      if IsObject(vOld) && IsObject(vNew) then !SharesNothing(vOld, vNew) else vOld == vNew
  }

  ghost predicate AnyStuck(snapshot: Record, server: Record, new_: Record)
  {
    exists k :: k in snapshot.fields.Keys + new_.fields.Keys && Stuck(snapshot, server, new_, k)
  }

  /** The delta looks at one field of the snapshot only. */
  lemma SameChild(a: Record, b: Record, new_: Record, k: string)
    requires Field(a, k) == Field(b, k)
    ensures ChildDelta(a, new_, k) == ChildDelta(b, new_, k)
  {
    hide ObjectMethod, ArrayMethod, Diff;
  }

  lemma MergedField(m: Record, d: Option<Json>, k: string)
    requires d.Some? ==> d.value.Obj?
    ensures Field(Apply(m, d), k) ==
            if d.None? || k !in d.value.fields then Field(m, k)
            else if d.value.fields[k].Null? then None
            else if k in m.fields && m.fields[k].Obj? && d.value.fields[k].Obj?
              then Some(DeepUpdate(m.fields[k], d.value.fields[k]))
            else Some(d.value.fields[k])
  {
    if d.Some? { FieldAfterUpdate(m, d.value, k); }
  }

  /** A field the server has, or the snapshot has not, is as with a snapshot of the server's record. */
  lemma FreshField(snapshot: Record, server: Record, new_: Record, k: string)
    requires Field(snapshot, k) == Field(server, k)
    ensures Field(Apply(server, Diff(snapshot, new_)), k) == Field(new_, k) <==> !Unsendable(server, new_, k)
  {
    hide Diff, Apply, Unsendable, ChildDelta, DeepUpdate;
    SameChild(snapshot, server, new_, k);
    DiffField(snapshot, new_, k);
    DiffField(server, new_, k);
    MergedField(server, Diff(snapshot, new_), k);
    MergedField(server, Diff(server, new_), k);
    ApplyField(server, new_, k);
  }

  /** A kept key. */
  lemma KeptField(snapshot: Record, server: Record, new_: Record, k: string)
    requires k in snapshot.fields && k !in server.fields
    ensures Field(Apply(server, Diff(snapshot, new_)), k) == Field(new_, k) <==> !Stuck(snapshot, server, new_, k)
  {
    hide Diff, Apply, DeepUpdate, SharesNothing, ObjectMethod, ArrayMethod;
    DiffField(snapshot, new_, k);
    MergedField(server, Diff(snapshot, new_), k);
    if k !in new_.fields {
      DeletedField(snapshot, new_, k);
    } else if IsObject(snapshot.fields[k]) && IsObject(new_.fields[k]) {
      DiffOfDisjoint(snapshot.fields[k], new_.fields[k]);
    }
  }

  /** One merge of a delta against a snapshot that may have kept deleted keys. */
  lemma ApplyStale(snapshot: Record, server: Record, new_: Record)
    requires Keeps(snapshot, server)
    ensures Apply(server, Diff(snapshot, new_)) == new_ <==> !AnyStuck(snapshot, server, new_)
  {
    hide Diff, Apply, Stuck;
    var r := Apply(server, Diff(snapshot, new_));
    forall k
      ensures Field(r, k) == Field(new_, k) <==> !Stuck(snapshot, server, new_, k)
      ensures Stuck(snapshot, server, new_, k) ==> k in snapshot.fields.Keys + new_.fields.Keys
    {
      OneField(snapshot, server, new_, k);
    }
    if !AnyStuck(snapshot, server, new_) {
      SameFields(r, new_);
    } else {
      var k :| k in snapshot.fields.Keys + new_.fields.Keys && Stuck(snapshot, server, new_, k);
      assert Field(r, k) != Field(new_, k);
    }
  }

  lemma OneField(snapshot: Record, server: Record, new_: Record, k: string)
    requires Keeps(snapshot, server)
    ensures Field(Apply(server, Diff(snapshot, new_)), k) == Field(new_, k) <==> !Stuck(snapshot, server, new_, k)
    ensures Stuck(snapshot, server, new_, k) ==> k in snapshot.fields.Keys + new_.fields.Keys
  {
    hide Diff, Apply;
    assert Field(snapshot, k) == Field(server, k) || k !in server.fields;
    if k in server.fields || k !in snapshot.fields {
      FreshField(snapshot, server, new_, k);
      ApplyField(server, new_, k);
    } else {
      KeptField(snapshot, server, new_, k);
    }
  }

  // ---------- one patch after the other ----------

  /** The edit comes across. */
  ghost predicate ComesAcross(snapshot: Record, server: Record, new_: Record)
  {
    !DottedChange(server, new_) && !AnyStuck(snapshot, server, new_)
  }

  /** `Object.assign(original, current)`, unless there is nothing to send. */
  function NextSnapshot(snapshot: Record, current: Record): Record
  {
    if Diff(snapshot, current).Some? then Obj(snapshot.fields + current.fields) else snapshot
  }

  /** When an edit has come across, the next snapshot again has what the server has. */
  lemma StillKeeps(snapshot: Record, server: Record, new_: Record)
    requires Keeps(snapshot, server) && ComesAcross(snapshot, server, new_)
    ensures Keeps(NextSnapshot(snapshot, new_), new_)
  {
    hide Diff, AnyStuck;
    ApplyStale(snapshot, server, new_);
    var next := NextSnapshot(snapshot, new_);
    forall k ensures Field(next, k) == Field(new_, k) || (k !in new_.fields && '.' !in k) {
      assert Field(snapshot, k) == Field(server, k) || (k !in server.fields && '.' !in k);
      assert '.' in k ==> Field(server, k) == Field(new_, k);
    }
  }

  function LastOf(server: Record, edits: seq<Record>): Record
  {
    if edits == [] then server else edits[|edits| - 1]
  }

  function SnapshotAfter(snapshot: Record, edits: seq<Record>): Record
  {
    if edits == [] then snapshot
    else NextSnapshot(SnapshotAfter(snapshot, edits[..|edits| - 1]), edits[|edits| - 1])
  }

  /** Every edit comes across, given the ones before it. */
  ghost predicate AllComeAcross(snapshot: Record, server: Record, edits: seq<Record>)
  {
    edits == [] ||
    var before := edits[..|edits| - 1];
    && AllComeAcross(snapshot, server, before)
    && ComesAcross(SnapshotAfter(snapshot, before), LastOf(server, before), edits[|edits| - 1])
  }

  lemma {:induction false} KeepsAfter(snapshot: Record, server: Record, edits: seq<Record>)
    requires Keeps(snapshot, server) && AllComeAcross(snapshot, server, edits)
    ensures Keeps(SnapshotAfter(snapshot, edits), LastOf(server, edits))
    decreases |edits|
  {
    hide Keeps, ComesAcross, NextSnapshot;
    if edits != [] {
      var before := edits[..|edits| - 1];
      KeepsAfter(snapshot, server, before);
      StillKeeps(SnapshotAfter(snapshot, before), LastOf(server, before), edits[|edits| - 1]);
    }
  }

  /** The fields of a delta, in some order. */
  method ListFields(delta: Record) returns (d: seq<Change>)
    ensures Lists(d, delta)
  {
    d := [];
    var todo := delta.fields.Keys;
    while todo != {}
      invariant todo <= delta.fields.Keys
      invariant forall i, j :: 0 <= i < j < |d| ==> d[i].key != d[j].key
      invariant forall c :: c in d ==> c.key !in todo && Field(delta, c.key) == Some(c.value)
      invariant forall k :: k in delta.fields && k !in todo ==> Change(k, delta.fields[k]) in d
      decreases todo
    {
      var k :| k in todo;
      assert forall i :: 0 <= i < |d| ==> d[i] in d;
      d := d + [Change(k, delta.fields[k])];
      todo := todo - {k};
    }
  }

  /** The server's record after a call of patch; a delta that cannot be partitioned changes nothing. */
  ghost predicate ServerAfter(server: Record, r: Outcome, after: Record)
  {
    if r.Thrown? then after == server
    else
      r.delta.Obj? && exists d :: Lists(d, r.delta) && after == MergedOrKept(server, d)
  }

  function MergedOrKept(server: Record, d: seq<Change>): Record
  {
    if NestedMerge(server, d).Some? then NestedMerge(server, d).value else server
  }

  /** patch, and the server's merge of what it sends. */
  method PatchServer(o: Snapshot, server: Record) returns (r: Outcome, merged: Record)
    modifies o`original
    ensures r == if Diff(old(o.original), o.current).Some? then Sent(Diff(old(o.original), o.current).value) else Thrown
    ensures o.original == NextSnapshot(old(o.original), o.current) && ServerAfter(server, r, merged)
    ensures Keeps(old(o.original), server) ==>
              (merged == o.current <==> ComesAcross(old(o.original), server, o.current))
  {
    hide Diff, Keeps, DottedChange, AnyStuck, Lists, NestedMerge;
    r := o.Patch();
    merged := server;
    var d := [];
    if r.Sent? {
      d := ListFields(r.delta);
      var m := NestedMerge(server, d);
      if m.Some? {
        merged := m.value;
      }
    }
    if Keeps(old(o.original), server) {
      ThroughServer(old(o.original), server, o.current, d);
      ApplyStale(old(o.original), server, o.current);
      Unmerged(old(o.original), server, o.current, d);
    }
  }

  /** A record that shows nothing of an edit is not the edited one, unless nothing was edited. */
  lemma Unmerged(snapshot: Record, server: Record, new_: Record, d: seq<Change>)
    requires Keeps(snapshot, server)
    requires if Diff(snapshot, new_).Some? then Lists(d, Diff(snapshot, new_).value) else d == []
    ensures NestedMerge(server, d).None? ==> server != new_
    ensures d == [] ==> NestedMerge(server, d) == Some(server)
  {
    EmptyUpdate(server);
    if Diff(snapshot, new_).Some? && server == new_ {
      forall c | c in d ensures '.' !in c.key {
        DiffField(snapshot, new_, c.key);
        SentFieldsDiffer(snapshot, new_, c.key);
      }
      PartitionIsIdentity(d, Diff(snapshot, new_).value);
    }
  }

  /** Each record of the server is what the call of patch made of the one before. */
  ghost predicate AllServed(server: Record, sent: seq<Outcome>, servers: seq<Record>)
    requires |sent| == |servers|
  {
    servers == [] ||
    var n := |servers| - 1;
    AllServed(server, sent[..n], servers[..n]) && ServerAfter(LastOf(server, servers[..n]), sent[n], servers[n])
  }

  /**
    Any number of edits, each patched: the server has each of them in turn exactly when
    every one comes across, and then the snapshot has what the server has.
   */
  method Session(o: Snapshot, server: Record, edits: seq<Record>)
      returns (sent: seq<Outcome>, servers: seq<Record>)
    modifies o
    ensures |sent| == |servers| == |edits| && o.original == SnapshotAfter(old(o.original), edits)
    ensures AllServed(server, sent, servers)
    ensures Keeps(old(o.original), server) ==> (servers == edits <==> AllComeAcross(old(o.original), server, edits))
    ensures Keeps(old(o.original), server) && servers == edits ==> Keeps(o.original, LastOf(server, edits))
  {
    hide Keeps, ComesAcross, ServerAfter, NextSnapshot, Diff;
    ghost var start := o.original;
    sent, servers := [], [];
    assert edits[..0] == [];
    var merged := server;
    for i := 0 to |edits|
      invariant |sent| == |servers| == i && o.original == SnapshotAfter(start, edits[..i])
      invariant merged == LastOf(server, servers)
      invariant AllServed(server, sent, servers)
      invariant Keeps(start, server) ==> (servers == edits[..i] <==> AllComeAcross(start, server, edits[..i]))
    {
      var before := edits[..i];
      assert edits[..i + 1][..i] == before && edits[..i + 1] == before + [edits[i]];
      if Keeps(start, server) && servers == before { KeepsAfter(start, server, before); }
      o.current := edits[i];
      var r;
      r, merged := PatchServer(o, merged);
      assert (servers + [merged])[..i] == servers && (sent + [r])[..i] == sent;
      sent, servers := sent + [r], servers + [merged];
    }
    assert edits[..|edits|] == edits;
    if Keeps(start, server) && servers == edits { KeepsAfter(start, server, edits); }
  }
}
