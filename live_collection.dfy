/** The live binding of a component to one query of a collection: the
    `useFirestore(collectionName, constraints)` hook. Its state is the
    triple `data`/`loading`/`error`; only the two listener callbacks change
    it. The writes `add`, `update` and `remove` go to the store and never
    touch that state: the new data arrives, if at all, with the next
    snapshot. */
module LiveCollection {
  import opened Common
  import opened Documents

  // ---------------------------------------------------------------------
  // Document mapping and write payloads
  // ---------------------------------------------------------------------

  /** `{ id: doc.id, ...doc.data() }`: the store id comes first, so a
      stored field that is itself called `id` overrides it. */
  function ToRecord(d: StoredDoc): (r: Fields)
    ensures r.Keys == d.fields.Keys + {"id"}
    ensures "id" !in d.fields ==> r["id"] == Str(d.id)
    ensures forall k :: k in d.fields ==> r[k] == d.fields[k]
  {
    map["id" := Str(d.id)] + d.fields
  }

  /** `snapshot.docs.map(...)`: one record per document, in delivery order. */
  function ToRecords(docs: seq<StoredDoc>): (rs: seq<Fields>)
    ensures |rs| == |docs|
    ensures forall i :: 0 <= i < |docs| ==> rs[i] == ToRecord(docs[i])
  {
    seq(|docs|, i requires 0 <= i < |docs| => ToRecord(docs[i]))
  }

  /** `{ ...newData, createdAt: new Date().toISOString() }`: the caller's
      fields with `createdAt` stamped last, so any `createdAt` the caller
      passed is overwritten. The stamp is the `Time` of `nowMs`, the same
      representation the announcement query compares against. */
  function AddPayload(newData: Fields, nowMs: int): (p: Fields)
    ensures p.Keys == newData.Keys + {"createdAt"}
    ensures p["createdAt"] == Time(nowMs)
    ensures forall k :: k in newData && k != "createdAt" ==> p[k] == newData[k]
  {
    newData + map["createdAt" := Time(nowMs)]
  }

  // ---------------------------------------------------------------------
  // The state machine of the three state fields
  // ---------------------------------------------------------------------

  datatype BindingState = BindingState(data: seq<Fields>, loading: bool, error: Option<string>)

  /** `useState([])`, `useState(true)`, `useState(null)`. */
  const Initial := BindingState([], true, None)

  /** What the listener receives: a full snapshot or an error. */
  datatype Delivery = Snapshot(docs: seq<StoredDoc>) | Failure(message: string)

  /** The two listener callbacks. The snapshot callback replaces `data`
      wholesale and clears `loading`; the error callback records the
      message and clears `loading`. Neither ever resets `error`. */
  function Step(s: BindingState, e: Delivery): BindingState
  {
    match e
    case Snapshot(docs) => s.(data := ToRecords(docs), loading := false)
    case Failure(m) => s.(error := Some(m), loading := false)
  }

  /** The state after a sequence of deliveries, applied in order. */
  function Run(s: BindingState, evs: seq<Delivery>): BindingState
    decreases |evs|
  {
    if evs == [] then s else Step(Run(s, evs[..|evs| - 1]), evs[|evs| - 1])
  }

  /** The documents of the last snapshot among `evs`, if any. */
  function LastSnapshot(evs: seq<Delivery>): Option<seq<StoredDoc>>
    decreases |evs|
  {
    if evs == [] then None
    else if evs[|evs| - 1].Snapshot? then Some(evs[|evs| - 1].docs)
    else LastSnapshot(evs[..|evs| - 1])
  }

  /** The message of the last error among `evs`, if any. */
  function LastFailure(evs: seq<Delivery>): Option<string>
    decreases |evs|
  {
    if evs == [] then None
    else if evs[|evs| - 1].Failure? then Some(evs[|evs| - 1].message)
    else LastFailure(evs[..|evs| - 1])
  }

  /** `data` is always the records of the last snapshot delivered, and an
      error delivery leaves it exactly as it was. */
  lemma {:induction false} RunData(s: BindingState, evs: seq<Delivery>)
    ensures Run(s, evs).data == match LastSnapshot(evs) { case Some(d) => ToRecords(d) case None => s.data }
    decreases |evs|
  {
    if evs != [] {
      RunData(s, evs[..|evs| - 1]);
    }
  }

  /** `error` is the message of the last error delivered, or what it was
      before: a later snapshot never clears it. */
  lemma {:induction false} RunError(s: BindingState, evs: seq<Delivery>)
    ensures Run(s, evs).error == match LastFailure(evs) { case Some(m) => Some(m) case None => s.error }
    decreases |evs|
  {
    if evs != [] {
      RunError(s, evs[..|evs| - 1]);
    }
  }

  /** `loading` stays set until the first delivery of either kind, and is
      clear from then on. */
  lemma {:induction false} RunLoading(s: BindingState, evs: seq<Delivery>)
    ensures Run(s, evs).loading == (s.loading && evs == [])
    decreases |evs|
  {
    if evs != [] {
      RunLoading(s, evs[..|evs| - 1]);
    }
  }

  lemma {:induction false} LastFailureExists(evs: seq<Delivery>)
    ensures LastFailure(evs).Some? <==> exists i :: 0 <= i < |evs| && evs[i].Failure?
    decreases |evs|
  {
    if evs != [] {
      var init := evs[..|evs| - 1];
      LastFailureExists(init);
      assert forall i :: 0 <= i < |init| ==> init[i] == evs[i];
    }
  }

  /** The binding is in the error state exactly when it already was, or
      some delivery was an error: no transition sets `error` back to null. */
  lemma ErrorIsSticky(s: BindingState, evs: seq<Delivery>)
    ensures Run(s, evs).error.Some? <==> s.error.Some? || exists i :: 0 <= i < |evs| && evs[i].Failure?
  {
    RunError(s, evs);
    LastFailureExists(evs);
  }

  // ---------------------------------------------------------------------
  // The hook instance
  // ---------------------------------------------------------------------

  /** One mounted use of the hook. `constraintsKey` is
      `JSON.stringify(constraints)`, the second effect dependency.
      `generation` numbers the listeners registered so far; only the
      current one, while `listening`, reaches the state: the store stops
      delivering to a listener once it is unsubscribed. */
  class Binding {
    var collectionName: string
    var constraintsKey: string
    var data: seq<Fields>
    var loading: bool
    var error: Option<string>
    var listening: bool
    var generation: nat

    function State(): BindingState
      reads this
    {
      BindingState(data, loading, error)
    }

    /** First render and first run of the effect: initial state, one listener. */
    constructor (collectionName: string, constraintsKey: string)
      ensures State() == Initial
      ensures this.collectionName == collectionName && this.constraintsKey == constraintsKey
      ensures listening && generation == 1
    {
      this.collectionName := collectionName;
      this.constraintsKey := constraintsKey;
      data := [];
      loading := true;
      error := None;
      listening := true;
      generation := 1;
    }

    /** A later render with possibly new arguments. The effect re-runs, and
        so releases the old listener and registers a new one, exactly when
        the collection name or the serialised constraints changed. The state
        fields are kept as they are. */
    method Rerender(name: string, key: string)
      requires listening
      modifies this
      ensures State() == old(State())
      ensures collectionName == name && constraintsKey == key && listening
      ensures generation == if name == old(collectionName) && key == old(constraintsKey)
                            then old(generation) else old(generation) + 1
    {
      if name != collectionName || key != constraintsKey {
        collectionName := name;
        constraintsKey := key;
        generation := generation + 1;
      }
    }

    /** Unmount: the effect's cleanup releases the listener. */
    method Unmount()
      modifies this
      ensures State() == old(State())
      ensures !listening && generation == old(generation)
      ensures collectionName == old(collectionName) && constraintsKey == old(constraintsKey)
    {
      listening := false;
    }

    /** The snapshot callback of listener `gen`. */
    method HandleSnapshot(gen: nat, docs: seq<StoredDoc>)
      modifies this
      ensures State() == if old(listening) && gen == old(generation)
                         then Step(old(State()), Snapshot(docs)) else old(State())
      ensures listening == old(listening) && generation == old(generation)
      ensures collectionName == old(collectionName) && constraintsKey == old(constraintsKey)
    {
      if listening && gen == generation {
        data := ToRecords(docs);
        loading := false;
      }
    }

    /** The error callback of listener `gen`. */
    method HandleError(gen: nat, message: string)
      modifies this
      ensures State() == if old(listening) && gen == old(generation)
                         then Step(old(State()), Failure(message)) else old(State())
      ensures listening == old(listening) && generation == old(generation)
      ensures collectionName == old(collectionName) && constraintsKey == old(constraintsKey)
    {
      if listening && gen == generation {
        error := Some(message);
        loading := false;
      }
    }

    /** `add(newData)`: writes the payload with `createdAt` stamped, and
        returns the id the store assigns or rethrows the store's failure.
        The method has no `modifies` clause: local state is untouched. */
    method Add(newData: Fields, nowMs: int, ack: Ack<string>) returns (request: WriteRequest, result: Result<string, string>)
      ensures request.AddDoc? && request.collection == collectionName
      ensures request.payload == AddPayload(newData, nowMs)
      ensures result.Ok? <==> ack.Accepted?
      ensures ack.Accepted? ==> result.value == ack.value
      ensures ack.Refused? ==> result.error == ack.reason
    {
      request := AddDoc(collectionName, AddPayload(newData, nowMs));
      match ack {
        case Accepted(id) => result := Ok(id);
        case Refused(reason) => result := Err(reason);
      }
    }

    /** `update(id, newData)`: a partial write of exactly `newData`; a
        failure (for instance a missing document) is rethrown. */
    method Update(id: string, newData: Fields, ack: Ack<()>) returns (request: WriteRequest, result: Result<(), string>)
      ensures request == UpdateDoc(collectionName, id, newData)
      ensures result.Ok? <==> ack.Accepted?
      ensures ack.Refused? ==> result.error == ack.reason
    {
      request := UpdateDoc(collectionName, id, newData);
      match ack {
        case Accepted(_) => result := Ok(());
        case Refused(reason) => result := Err(reason);
      }
    }

    /** `remove(id)`: deletes the document; a failure is rethrown. */
    method Remove(id: string, ack: Ack<()>) returns (request: WriteRequest, result: Result<(), string>)
      ensures request == DeleteDoc(collectionName, id)
      ensures result.Ok? <==> ack.Accepted?
      ensures ack.Refused? ==> result.error == ack.reason
    {
      request := DeleteDoc(collectionName, id);
      match ack {
        case Accepted(_) => result := Ok(());
        case Refused(reason) => result := Err(reason);
      }
    }
  }
}
