/**
 What every IPC call answers and leaves, said about a map from tasks to mailbox and capabilities: no
 array of endpoints, no search, no counter. Which free slot and which unused generation a new
 capability gets is left open.
 */
module IpcAnswers {
  import opened Common
  import opened IpcModel
  import opened IpcLineage
  import opened IpcInvariant
  import opened IpcPreservation
  import opened IpcTransfer
  import opened IpcViews

  datatype Box = Box(queue: seq<Message>, waiting: bool, caps: map<nat, Capability>)

  type Boxes = map<nat, Box>

  function Active(caps: seq<Capability>): map<nat, Capability> { map t: nat | t < |caps| && caps[t].active :: caps[t] }

  function BoxOf(): Endpoint -> Box { (e: Endpoint) => Box(e.queue, e.waiting, Active(e.caps)) }

  /** Every registered task with its mailbox and its capabilities by slot. */
  ghost function View(s: State): Boxes { Boxed(s.endpoints) }

  // ---- names

  /** The name of the capability of generation `g` in slot `t`. */
  function Handle(t: nat, g: nat): nat { 256 * g + t + 1 }

  /** `handle` is the owner's name for the capability in its slot `t`. */
  ghost predicate Names(v: Boxes, owner: nat, handle: nat, t: nat)
  {
    owner in v && t in v[owner].caps && handle == Handle(t, v[owner].caps[t].generation)
  }

  ghost predicate Known(v: Boxes, owner: nat, handle: nat) { exists t: nat :: Names(v, owner, handle, t) }

  ghost function Named(v: Boxes, owner: nat, handle: nat): Capability
    requires Known(v, owner, handle)
  {
    var t: nat :| Names(v, owner, handle, t);
    v[owner].caps[t]
  }

  /** Some slot and some generation have this handle. */
  ghost predicate Readable(handle: nat) { exists t: nat, g: nat :: t < 8 && g > 0 && handle == Handle(t, g) }

  /** Why a handle that names nothing is refused. */
  ghost function Unknown(v: Boxes, owner: nat, handle: nat): IpcError
  {
    if owner !in v then EndpointMissing else if !Readable(handle) then InvalidCapability else StaleCapability
  }

  ghost predicate Unused(v: Boxes, g: nat)
  {
    0 < g < 0x100_0000_0000_0000 && forall id, t: nat :: id in v && t in v[id].caps ==> v[id].caps[t].generation != g && v[id].caps[t].parent != g
  }

  // ---- how the map and the array belong together

  /** All of the invariant that the map itself needs. */
  ghost predicate Plain(eps: seq<Endpoint>)
  {
    && OwnersUnique(eps) && (forall i :: 0 <= i < |eps| ==> |eps[i].caps| == MAX_CAPABILITIES)
    && (forall i, t :: Live(eps, i, t) ==> CapAt(eps, i, t).generation > 0)
  }

  lemma InvPlain(s: State)
    requires Inv(s)
    ensures Plain(s.endpoints)
  {
    forall i, t | Live(s.endpoints, i, t) ensures CapAt(s.endpoints, i, t).generation > 0 { assert CapOk(s.endpoints, i, t); }
  }

  ghost function Boxed(eps: seq<Endpoint>): Boxes { Keyed(eps, BoxOf()) }

  function BoxAt(e: Endpoint): Box { Box(e.queue, e.waiting, Active(e.caps)) }

  lemma BoxedFind(eps: seq<Endpoint>, id: nat)
    requires OwnersUnique(eps) && id != 0
    ensures id in Boxed(eps) <==> Find(eps, id).Some?
    ensures Find(eps, id).Some? ==> Boxed(eps)[id] == BoxAt(eps[Find(eps, id).value])
  {
    FindKeyed(eps, BoxOf(), id);
  }

  lemma ViewFind(s: State, id: nat)
    requires Inv(s) && id != 0
    ensures id in View(s) <==> Find(s.endpoints, id).Some?
    ensures Find(s.endpoints, id).Some? ==> View(s)[id] == BoxAt(s.endpoints[Find(s.endpoints, id).value])
  {
    BoxedFind(s.endpoints, id);
  }

  lemma SameOwners(eps: seq<Endpoint>, after: seq<Endpoint>)
    requires OwnersUnique(eps) && |after| == |eps| && forall j :: 0 <= j < |eps| ==> after[j].owner == eps[j].owner
    ensures OwnersUnique(after)
  {
  }

  /** One endpoint of a registered task changes. */
  lemma BoxedPut(eps: seq<Endpoint>, after: seq<Endpoint>, i: nat)
    requires OwnersUnique(eps) && i < |eps| == |after| && eps[i].owner != 0 && after == eps[i := after[i]] && after[i].owner == eps[i].owner
    ensures eps[i].owner in Boxed(eps) && Boxed(eps)[eps[i].owner] == BoxAt(eps[i])
    ensures Boxed(after) == Boxed(eps)[eps[i].owner := BoxAt(after[i])]
  {
    SameOwners(eps, after);
    KeyedAt(eps, BoxOf(), i);
    KeyedPut(eps, after, BoxOf(), i);
  }

  lemma ReadableIff(handle: nat)
    ensures Readable(handle) <==> Decode(handle).Some?
    ensures forall t: nat, g: nat :: t < 8 && g > 0 ==> (Decode(handle) == Some((t, g)) <==> handle == Handle(t, g))
  {
    forall t: nat, g: nat | t < 8 && g > 0 ensures Decode(handle) == Some((t, g)) <==> handle == Handle(t, g) {
      EncodeDecode(t, g);
      DecodeEncode(handle);
    }
    DecodeEncode(handle);
    if Decode(handle).Some? { assert handle == Handle(Decode(handle).value.0, Decode(handle).value.1); }
  }

  lemma NamesAt(eps: seq<Endpoint>, owner: nat, handle: nat, i: nat, t: nat)
    requires Plain(eps) && owner != 0 && Find(eps, owner) == Some(i)
    ensures Names(Boxed(eps), owner, handle, t) <==> Live(eps, i, t) && Decode(handle) == Some((t, CapAt(eps, i, t).generation))
  {
    BoxedFind(eps, owner);
    ReadableIff(handle);
  }

  lemma LookupBoxed(eps: seq<Endpoint>, owner: nat, handle: nat)
    requires Plain(eps) && owner != 0
    ensures match Lookup(eps, owner, handle)
            case Ok((i, t)) =>
              && Names(Boxed(eps), owner, handle, t) && Known(Boxed(eps), owner, handle)
              && Named(Boxed(eps), owner, handle) == CapAt(eps, i, t) == Boxed(eps)[owner].caps[t]
            case Err(e) => !Known(Boxed(eps), owner, handle) && e == Unknown(Boxed(eps), owner, handle)
  {
    BoxedFind(eps, owner);
    ReadableIff(handle);
    var found := Find(eps, owner);
    if found.Some? {
      forall t: nat ensures Names(Boxed(eps), owner, handle, t) <==> Live(eps, found.value, t) && Decode(handle) == Some((t, CapAt(eps, found.value, t).generation)) {
        NamesAt(eps, owner, handle, found.value, t);
      }
      var r := Lookup(eps, owner, handle);
      if r.Ok? { assert Names(Boxed(eps), owner, handle, r.value.1); }
    }
  }

  /** Looking a handle up finds the one slot it names. */
  lemma LookupAnswer(s: State, owner: nat, handle: nat)
    requires Inv(s) && owner != 0
    ensures match Lookup(s.endpoints, owner, handle)
            case Ok((i, t)) =>
              && Names(View(s), owner, handle, t) && Known(View(s), owner, handle)
              && Named(View(s), owner, handle) == CapAt(s.endpoints, i, t) == View(s)[owner].caps[t]
            case Err(e) => !Known(View(s), owner, handle) && e == Unknown(View(s), owner, handle)
  {
    InvPlain(s);
    LookupBoxed(s.endpoints, owner, handle);
  }

  lemma UnusedGeneration(s: State)
    requires Inv(s)
    ensures Unused(View(s), Allocate(s).1)
  {
    AllocateFresh(s);
    var g := Allocate(s).1;
    forall id, t: nat | id in View(s) && t in View(s)[id].caps
      ensures View(s)[id].caps[t].generation != g && View(s)[id].caps[t].parent != g
    {
      var i := Find(s.endpoints, id).value;
      assert Live(s.endpoints, i, t);
    }
  }

  // ---- looking up

  /** Resolving answers by the name and the rights alone, and changes nothing. */
  lemma ResolveAnswer(s: State, owner: nat, handle: nat, required: Rights)
    requires Inv(s) && owner != 0
    ensures var v := View(s);
            Resolve(s, owner, handle, required)
            == (s, if !Known(v, owner, handle) then Err(Unknown(v, owner, handle))
                   else if required <= Named(v, owner, handle).rights then Ok(Named(v, owner, handle)) else Err(PermissionDenied))
  {
    LookupAnswer(s, owner, handle);
    ResolveKeepsState(s, owner, handle, required);
    var found := Lookup(s.endpoints, owner, handle);
    if found.Ok? { assert CapOk(s.endpoints, found.value.0, found.value.1); }
  }

  /** Revoking is refused exactly for a handle that names nothing, and then changes nothing. */
  lemma RevokeRefused(s: State, owner: nat, handle: nat)
    requires Inv(s) && owner != 0
    ensures if Known(View(s), owner, handle) then Revoke(s, owner, handle).1.Ok?
            else Revoke(s, owner, handle) == (s, Err(Unknown(View(s), owner, handle)))
  {
    LookupAnswer(s, owner, handle);
  }

  /** A registered task's own handle names its slot 0. */
  lemma SelfAnswer(s: State, id: nat)
    requires Inv(s) && id != 0
    ensures var v := View(s);
            if id !in v then SelfCapability(s, id) == Err(EndpointMissing)
            else SelfCapability(s, id).Ok? && Names(v, id, SelfCapability(s, id).value, 0)
  {
    ViewFind(s, id);
    if Find(s.endpoints, id).Some? { assert TableOk(s.endpoints, Find(s.endpoints, id).value); }
  }

  // ---- registering

  lemma OwnersCount(s: State)
    requires Inv(s)
    ensures |View(s)| <= 8
    ensures Find(s.endpoints, 0).None? <==> |View(s)| == 8
  {
    KeyedKeys(s.endpoints, BoxOf());
    CountOwners(s.endpoints);
    assert |View(s)| == |View(s).Keys|;
  }

  lemma CountOwners(eps: seq<Endpoint>)
    requires OwnersUnique(eps) && |eps| == 8
    ensures |Owners(eps)| <= 8
    ensures Find(eps, 0).None? <==> |Owners(eps)| == 8
  {
    var ids: seq<nat> := seq(|eps|, i requires 0 <= i < |eps| => eps[i].owner);
    var free := Find(eps, 0);
    if free.None? {
      assert forall i :: 0 <= i < |eps| ==> ids[i] == eps[i].owner != 0;
      assert Owners(eps) == Elements(ids);
      FullOwners(ids);
    } else {
      OtherOwners(eps, ids, free.value);
    }
  }

  lemma OtherOwners(eps: seq<Endpoint>, ids: seq<nat>, f: nat)
    requires |ids| == |eps| && (forall i :: 0 <= i < |eps| ==> ids[i] == eps[i].owner) && f < |eps| && eps[f].owner == 0
    ensures |Owners(eps)| < |eps|
  {
    var rest := ids[..f] + ids[f + 1..];
    forall id | id in Owners(eps) ensures id in rest {
      var j :| 0 <= j < |eps| && eps[j].owner != 0 && eps[j].owner == id;
      assert if j < f then rest[j] == id else rest[j - 1] == id;
    }
    SubsetSize(Owners(eps), Elements(rest));
    ElementsBound(rest);
  }

  lemma {:induction false} FullOwners(ids: seq<nat>)
    requires forall i, j :: 0 <= i < j < |ids| ==> ids[i] != ids[j]
    ensures |Elements(ids)| == |ids|
  {
    if ids != [] {
      FullOwners(ids[1..]);
      assert Elements(ids) == {ids[0]} + Elements(ids[1..]);
    }
  }

  ghost predicate Opened(v: Boxes, id: nat, v': Boxes, g: nat)
  {
    Unused(v, g) && v' == v[id := Box([], false, map[0 := Capability(id, g, 0, 0, {Send, Receive, Cancel, Delegate}, true)])]
  }

  ghost predicate RegisterAllowed(v: Boxes, initialized: bool, id: nat, v': Boxes, r: Result<(), IpcError>)
  {
    if !initialized then v' == v && r == Err(NotInitialized)
    else if id == 0 then v' == v && r == Err(InvalidTask)
    else if id in v then v' == v && r == Ok(())
    else if |v| >= 8 then v' == v && r == Err(EndpointCapacity)
    else r == Ok(()) && exists g :: Opened(v, id, v', g)
  }

  /** Registering opens an empty mailbox with one capability, the task's own with all four rights, unless eight tasks have one. */
  lemma RegisterAnswer(s: State, id: nat)
    requires Inv(s)
    ensures RegisterAllowed(View(s), s.initialized, id, View(Register(s, id).0), Register(s, id).1)
  {
    OwnersCount(s);
    if id != 0 { ViewFind(s, id); }
    if s.initialized && id != 0 && Find(s.endpoints, id).None? && Find(s.endpoints, 0).Some? {
      RegisterOpens(s, id, Find(s.endpoints, 0).value);
    }
  }

  lemma RegisterOpens(s: State, id: nat, i: nat)
    requires Inv(s) && s.initialized && id != 0 && Find(s.endpoints, id).None? && Find(s.endpoints, 0) == Some(i)
    ensures Register(s, id).1 == Ok(()) && Opened(View(s), id, View(Register(s, id).0), Allocate(s).1)
  {
    RegisterKeepsInv(s, id);
    UnusedGeneration(s);
    AllocateFresh(s);
    OpenedBox(s.endpoints, Register(s, id).0.endpoints, i, id, Allocate(s).1);
  }

  lemma OpenedBox(eps: seq<Endpoint>, after: seq<Endpoint>, i: nat, id: nat, g: nat)
    requires OwnersUnique(eps) && OwnersUnique(after) && i < |eps| && eps[i].owner == 0 && id != 0
    requires after == PutCap(eps[i := EmptyEndpoint(id)], i, 0, Capability(id, g, 0, 0, {Send, Receive, Cancel, Delegate}, true))
    ensures Boxed(after) == Boxed(eps)[id := Box([], false, map[0 := Capability(id, g, 0, 0, {Send, Receive, Cancel, Delegate}, true)])]
  {
    KeyedPut(eps, after, BoxOf(), i);
    assert Active(after[i].caps) == map[0 := Capability(id, g, 0, 0, {Send, Receive, Cancel, Delegate}, true)];
  }

  // ---- granting

  ghost predicate Gains(v: Boxes, id: nat, v': Boxes, t: nat, c: Capability)
  {
    id in v && t < 8 && t !in v[id].caps && v' == v[id := v[id].(caps := v[id].caps[t := c])]
  }

  ghost predicate GrantAllowed(v: Boxes, owner: nat, target: nat, rights: Rights, v': Boxes, r: Result<nat, IpcError>)
  {
    if rights == {} || (Receive in rights && owner != target) then v' == v && r == Err(InvalidRights)
    else if owner !in v || target !in v then v' == v && r == Err(EndpointMissing)
    else if |v[owner].caps| >= 8 then v' == v && r == Err(CapabilityCapacity)
    else exists t: nat, g: nat :: r == Ok(Handle(t, g)) && Unused(v, g) && Gains(v, owner, v', t, Capability(target, g, 0, 0, rights, true))
  }

  lemma SlotsCount(caps: seq<Capability>)
    requires |caps| == MAX_CAPABILITIES
    ensures |Active(caps)| <= 8
    ensures FreeSlot(caps).None? <==> |Active(caps)| == 8
  {
    CountActive(caps);
  }

  lemma {:induction false} CountActive(caps: seq<Capability>)
    ensures |Active(caps)| <= |caps|
    ensures |Active(caps)| == |caps| <==> forall t :: 0 <= t < |caps| ==> caps[t].active
  {
    if caps != [] {
      var n := |caps| - 1;
      var rest := caps[..n];
      CountActive(rest);
      assert forall t :: 0 <= t < n ==> rest[t] == caps[t];
      if caps[n].active {
        assert Active(caps) == Active(rest)[n := caps[n]] && n !in Active(rest);
      } else {
        assert Active(caps) == Active(rest);
      }
    }
  }

  /** Granting between registered tasks puts a root capability with the target and exactly the rights asked for into a free slot of the owner. */
  lemma GrantAnswer(s: State, owner: nat, target: nat, rights: Rights)
    requires Inv(s) && owner != 0 && target != 0
    ensures GrantAllowed(View(s), owner, target, rights, View(Grant(s, owner, target, rights).0), Grant(s, owner, target, rights).1)
  {
    ViewFind(s, owner);
    ViewFind(s, target);
    var found := Find(s.endpoints, owner);
    if found.Some? {
      SlotsCount(s.endpoints[found.value].caps);
      if Grant(s, owner, target, rights).1.Ok? { GrantGains(s, owner, target, rights, found.value); }
    }
  }

  lemma GrantGains(s: State, owner: nat, target: nat, rights: Rights, i: nat)
    requires Inv(s) && owner != 0 && target != 0 && Grant(s, owner, target, rights).1.Ok? && Find(s.endpoints, owner) == Some(i)
    ensures exists t: nat, g: nat ::
              && Grant(s, owner, target, rights).1 == Ok(Handle(t, g)) && Unused(View(s), g)
              && Gains(View(s), owner, View(Grant(s, owner, target, rights).0), t, Capability(target, g, 0, 0, rights, true))
  {
    UnusedGeneration(s);
    var (t, g) := (FreeSlot(s.endpoints[i].caps).value, Allocate(s).1);
    GrantPuts(s, owner, target, rights, i, t, g);
    PutGains(s.endpoints, i, t, Capability(target, g, 0, 0, rights, true));
    assert Gains(View(s), owner, View(Grant(s, owner, target, rights).0), t, Capability(target, g, 0, 0, rights, true));
  }

  lemma GrantPuts(s: State, owner: nat, target: nat, rights: Rights, i: nat, t: nat, g: nat)
    requires Inv(s) && Grant(s, owner, target, rights).1.Ok? && Find(s.endpoints, owner) == Some(i)
    requires FreeSlot(s.endpoints[i].caps) == Some(t) && g == Allocate(s).1
    ensures Grant(s, owner, target, rights).0.endpoints == PutCap(s.endpoints, i, t, Capability(target, g, 0, 0, rights, true))
    ensures Grant(s, owner, target, rights).1 == Ok(Handle(t, g))
  {
    AllocateNotLive(s);
  }

  lemma PutGains(eps: seq<Endpoint>, i: nat, t: nat, c: Capability)
    requires OwnersUnique(eps) && i < |eps| && eps[i].owner != 0 && t < |eps[i].caps| == 8 && !eps[i].caps[t].active && c.active
    ensures Gains(Boxed(eps), eps[i].owner, Boxed(PutCap(eps, i, t, c)), t, c)
  {
    var after := PutCap(eps, i, t, c);
    BoxedPut(eps, after, i);
    ActivePut(eps[i].caps, t, c);
  }

  lemma ActivePut(caps: seq<Capability>, t: nat, c: Capability)
    requires t < |caps| && c.active
    ensures Active(caps[t := c]) == Active(caps)[t := c]
    ensures t in Active(caps) <==> caps[t].active
  {
  }

  /** What was granted resolves exactly for the rights granted. */
  lemma GrantedResolves(s: State, owner: nat, target: nat, rights: Rights, required: Rights)
    requires Inv(s) && owner != 0 && target != 0 && Grant(s, owner, target, rights).1.Ok?
    ensures var (after, r) := Grant(s, owner, target, rights);
            Resolve(after, owner, r.value, required).1.Ok? <==> required <= rights
    ensures var (after, r) := Grant(s, owner, target, rights);
            required <= rights ==> Resolve(after, owner, r.value, required).1.value.target == target
  {
    GrantAnswer(s, owner, target, rights);
    GrantKeepsInv(s, owner, target, rights);
    var (after, r) := Grant(s, owner, target, rights);
    var t: nat, g: nat :| r == Ok(Handle(t, g)) && Unused(View(s), g) && Gains(View(s), owner, View(after), t, Capability(target, g, 0, 0, rights, true));
    ResolveNamed(after, owner, r.value, t, required);
  }

  lemma ResolveNamed(s: State, owner: nat, handle: nat, t: nat, required: Rights)
    requires Inv(s) && owner != 0 && Names(View(s), owner, handle, t)
    ensures Resolve(s, owner, handle, required)
            == (s, if required <= View(s)[owner].caps[t].rights then Ok(View(s)[owner].caps[t]) else Err(PermissionDenied))
  {
    ResolveAnswer(s, owner, handle, required);
    LookupAnswer(s, owner, handle);
    ReadableIff(handle);
    InvPlain(s);
    NamesAt(s.endpoints, owner, handle, Find(s.endpoints, owner).value, t);
  }

  // ---- sending

  ghost predicate Queues(v: Boxes, id: nat, v': Boxes, m: Message)
  {
    id in v && v' == v[id := v[id].(queue := v[id].queue + [m], waiting := false)]
  }

  ghost predicate SendAllowed(
    v: Boxes, initialized: bool, next: nat, sender: nat, receiver: nat, bytes: seq<Byte>, v': Boxes, r: Result<(nat, bool), IpcError>)
  {
    if !initialized then v' == v && r == Err(NotInitialized)
    else if |bytes| > 64 then v' == v && r == Err(MessageTooLarge)
    else if sender !in v || receiver !in v then v' == v && r == Err(EndpointMissing)
    else if |v[receiver].queue| >= 8 then v' == v && r == Err(QueueFull)
    else r == Ok((next, v[receiver].waiting)) && Queues(v, receiver, v', Message(sender, next, 0, {}, bytes))
  }

  /** Sending between registered tasks fails exactly on a message that is too long or a full mailbox. */
  lemma SendAnswer(s: State, sender: nat, receiver: nat, bytes: seq<Byte>)
    requires Inv(s) && sender != 0 && receiver != 0
    ensures var (after, r) := SendTo(s, sender, receiver, bytes);
            SendAllowed(View(s), s.initialized, s.nextSequence, sender, receiver, bytes, View(after), r)
  {
    ViewFind(s, sender);
    ViewFind(s, receiver);
    var i := SendCases(s, sender, receiver, bytes);
    if SendTo(s, sender, receiver, bytes).1.Ok? {
      BoxedPut(s.endpoints, SendTo(s, sender, receiver, bytes).0.endpoints, i);
    }
  }

  /** Sending through a capability: its name and SEND right first, then the send to its target. */
  lemma SendCapabilityAnswer(s: State, sender: nat, handle: nat, bytes: seq<Byte>)
    requires Inv(s) && sender != 0
    ensures var v := View(s);
            var (after, r) := SendCapability(s, sender, handle, bytes);
            if !Known(v, sender, handle) then after == s && r == Err(Unknown(v, sender, handle))
            else if Send !in Named(v, sender, handle).rights then after == s && r == Err(PermissionDenied)
            else
              var to := Named(v, sender, handle).target;
              SendAllowed(v, s.initialized, s.nextSequence, sender, to, bytes, View(after), if r.Ok? then Ok((r.value.0, r.value.1)) else Err(r.error))
              && (r.Ok? ==> r.value.2 == to)
  {
    ResolveAnswer(s, sender, handle, {Send});
    ResolveKeepsState(s, sender, handle, {Send});
    var r := Resolve(s, sender, handle, {Send}).1;
    SendShape(s, sender, handle, bytes, r);
    if r.Ok? { SendAnswer(s, sender, r.value.target, bytes); }
  }

  lemma SendShape(s: State, sender: nat, handle: nat, bytes: seq<Byte>, resolved: Result<Capability, IpcError>)
    requires Resolve(s, sender, handle, {Send}) == (s, resolved)
    ensures var (after, r) := SendCapability(s, sender, handle, bytes);
            match resolved
            case Err(e) => after == s && r == Err(e)
            case Ok(cap) =>
              var (sent, q) := SendTo(s, sender, cap.target, bytes);
              after == sent && r == if q.Ok? then Ok((q.value.0, q.value.1, cap.target)) else Err(q.error)
  {
  }

  // ---- sending with a capability attached

  /** Why a transfer from a resolved source to a resolved destination is refused. */
  ghost function TransferRefusal(v: Boxes, to: nat, from: Capability, requested: Rights): Option<IpcError>
  {
    if !(requested <= from.rights) then Some(RightsEscalation)
    else if Receive in requested && to != from.target then Some(InvalidRights)
    else if from.depth >= 16 then Some(LineageDepthExceeded)
    else if to !in v then Some(EndpointMissing)
    else if |v[to].queue| >= 8 then Some(QueueFull)
    else if |v[to].caps| >= 8 then Some(CapabilityCapacity)
    else None
  }

  ghost function UseError(v: Boxes, owner: nat, handle: nat, required: Right): Option<IpcError>
  {
    if !Known(v, owner, handle) then Some(Unknown(v, owner, handle))
    else if required !in Named(v, owner, handle).rights then Some(PermissionDenied)
    else None
  }

  /** Why a transfer is refused, in the order the checks are made; None if it goes through. */
  ghost function TransferError(v: Boxes, sender: nat, destination: nat, source: nat, requested: Rights, bytes: seq<Byte>): Option<IpcError>
  {
    if requested == {} then Some(InvalidRights)
    else if |bytes| > 64 then Some(MessageTooLarge)
    else if UseError(v, sender, destination, Send).Some? then UseError(v, sender, destination, Send)
    else if UseError(v, sender, source, Delegate).Some? then UseError(v, sender, source, Delegate)
    else TransferRefusal(v, Named(v, sender, destination).target, Named(v, sender, source), requested)
  }

  /** The attenuated child in a free slot of the receiver, and the message that tells its handle. */
  ghost predicate Passed(
    v: Boxes, next: nat, sender: nat, to: nat, from: Capability, requested: Rights, bytes: seq<Byte>, v': Boxes,
    r: (nat, bool, nat, nat), t: nat, g: nat)
  {
    && Unused(v, g) && to in v && t < 8 && t !in v[to].caps && r == (next, v[to].waiting, to, Handle(t, g))
    && v' == v[to := Box(v[to].queue + [Message(sender, next, r.3, requested, bytes)], false,
                         v[to].caps[t := Capability(from.target, g, from.generation, from.depth + 1, requested, true)])]
  }

  ghost predicate PassedSome(
    v: Boxes, next: nat, sender: nat, to: nat, from: Capability, requested: Rights, bytes: seq<Byte>, v': Boxes, r: (nat, bool, nat, nat))
  {
    exists t: nat, g: nat :: Passed(v, next, sender, to, from, requested, bytes, v', r, t, g)
  }

  lemma UseAnswer(s: State, owner: nat, handle: nat, required: Right)
    requires Inv(s) && owner != 0
    ensures Resolve(s, owner, handle, {required})
            == (s, if UseError(View(s), owner, handle, required).Some? then Err(UseError(View(s), owner, handle, required).value)
                   else Ok(Named(View(s), owner, handle)))
  {
    ResolveAnswer(s, owner, handle, {required});
  }

  /** The same, read off the array. */
  ghost function RefusalAt(eps: seq<Endpoint>, to: nat, from: Capability, requested: Rights): Option<IpcError>
  {
    if !(requested <= from.rights) then Some(RightsEscalation)
    else if Receive in requested && to != from.target then Some(InvalidRights)
    else if from.depth >= 16 then Some(LineageDepthExceeded)
    else
      match Find(eps, to)
      case None => Some(EndpointMissing)
      case Some(i) =>
        if |eps[i].queue| >= 8 then Some(QueueFull) else if FreeSlot(eps[i].caps).None? then Some(CapabilityCapacity) else None
  }

  lemma RefusalSame(eps: seq<Endpoint>, to: nat, from: Capability, requested: Rights)
    requires Plain(eps) && to != 0
    ensures RefusalAt(eps, to, from, requested) == TransferRefusal(Boxed(eps), to, from, requested)
  {
    BoxedFind(eps, to);
    var found := Find(eps, to);
    if found.Some? { SlotsCount(eps[found.value].caps); }
  }

  lemma RefusalMade(s: State, sender: nat, to: nat, from: Capability, requested: Rights, bytes: seq<Byte>)
    requires CounterOk(s)
    ensures var (after, r) := TransferResolved(s, sender, to, from, requested, bytes);
            match RefusalAt(s.endpoints, to, from, requested)
            case Some(e) => after == s && r == Err(e)
            case None => r.Ok?
  {
  }

  /** A transfer is refused exactly for the first check that fails, without effect; otherwise the receiver gets child and message. */
  lemma TransferAnswer(s: State, sender: nat, destination: nat, source: nat, requested: Rights, bytes: seq<Byte>)
    requires Inv(s) && sender != 0
    ensures var v := View(s);
            var (after, r) := Transfer(s, sender, destination, source, requested, bytes);
            match TransferError(v, sender, destination, source, requested, bytes)
            case Some(e) => after == s && r == Err(e)
            case None =>
              && r.Ok? && Known(v, sender, destination) && Known(v, sender, source)
              && PassedSome(v, s.nextSequence, sender, Named(v, sender, destination).target, Named(v, sender, source), requested, bytes, View(after), r.value)
  {
    var v := View(s);
    UseAnswer(s, sender, destination, Send);
    UseAnswer(s, sender, source, Delegate);
    if requested != {} && |bytes| <= 64 && UseError(v, sender, destination, Send).None? && UseError(v, sender, source, Delegate).None? {
      ResolveKeepsState(s, sender, destination, {Send});
      ResolvedAnswer(s, sender, destination, source, requested, bytes, Named(v, sender, destination), Named(v, sender, source));
    }
  }

  lemma ResolvedAnswer(s: State, sender: nat, destination: nat, source: nat, requested: Rights, bytes: seq<Byte>, to: Capability, from: Capability)
    requires Inv(s) && sender != 0 && requested != {} && |bytes| <= MAX_MESSAGE_BYTES && to.target != 0
    requires Resolve(s, sender, destination, {Send}) == (s, Ok(to)) && Resolve(s, sender, source, {Delegate}) == (s, Ok(from))
    ensures var (after, r) := Transfer(s, sender, destination, source, requested, bytes);
            match TransferRefusal(View(s), to.target, from, requested)
            case Some(e) => after == s && r == Err(e)
            case None => r.Ok? && PassedSome(View(s), s.nextSequence, sender, to.target, from, requested, bytes, View(after), r.value)
  {
    TransferShape(s, sender, destination, source, requested, bytes);
    InvPlain(s);
    RefusalSame(s.endpoints, to.target, from, requested);
    RefusalMade(s, sender, to.target, from, requested, bytes);
    if TransferRefusal(View(s), to.target, from, requested).None? {
      var receiver, i, slot, j, k, from1 := TransferCases(s, sender, destination, source, requested, bytes);
      CommitReceiver(s, sender, receiver, i, slot, from, requested, bytes, to.target);
      CommitFields(s, sender, receiver, i, slot, from, requested, bytes);
      var (after, r) := Transfer(s, sender, destination, source, requested, bytes);
      UnusedGeneration(s);
      PassedFrom(s.endpoints, after.endpoints, s.nextSequence, sender, i, slot, from, requested, bytes, r.value, Allocate(s).1);
      PassedExists(View(s), s.nextSequence, sender, receiver, from, requested, bytes, View(after), r.value, slot, Allocate(s).1);
    }
  }

  lemma CommitReceiver(s: State, sender: nat, receiver: nat, i: nat, slot: nat, from: Capability, requested: Rights, bytes: seq<Byte>, to: nat)
    requires CounterOk(s) && i < |s.endpoints| && slot < |s.endpoints[i].caps|
    requires TransferResolved(s, sender, to, from, requested, bytes) == Commit(s, sender, receiver, i, slot, from, requested, bytes)
    ensures receiver == to
  {
  }

  lemma PassedFrom(
    eps: seq<Endpoint>, after: seq<Endpoint>, next: nat, sender: nat, i: nat, t: nat, from: Capability, requested: Rights, bytes: seq<Byte>,
    r: (nat, bool, nat, nat), g: nat)
    requires OwnersUnique(eps) && i < |eps| && eps[i].owner != 0 && t < |eps[i].caps| == 8 && !eps[i].caps[t].active && Unused(Boxed(eps), g)
    requires r == (next, eps[i].waiting, eps[i].owner, Handle(t, g))
    requires after == eps[i := Endpoint(eps[i].owner, eps[i].queue + [Message(sender, next, r.3, requested, bytes)], false,
                                        eps[i].caps[t := Capability(from.target, g, from.generation, from.depth + 1, requested, true)])]
    ensures Passed(Boxed(eps), next, sender, eps[i].owner, from, requested, bytes, Boxed(after), r, t, g)
  {
    PassedBox(eps, after, i, t, Capability(from.target, g, from.generation, from.depth + 1, requested, true));
  }

  lemma PassedExists(
    v: Boxes, next: nat, sender: nat, to: nat, from: Capability, requested: Rights, bytes: seq<Byte>, v': Boxes,
    r: (nat, bool, nat, nat), t: nat, g: nat)
    requires Passed(v, next, sender, to, from, requested, bytes, v', r, t, g)
    ensures PassedSome(v, next, sender, to, from, requested, bytes, v', r)
  {
  }

  lemma CommitFields(s: State, sender: nat, receiver: nat, i: nat, slot: nat, from: Capability, requested: Rights, bytes: seq<Byte>)
    requires CounterOk(s) && i < |s.endpoints| && slot < |s.endpoints[i].caps| && s.endpoints[i].owner == receiver
    ensures var (after, r) := Commit(s, sender, receiver, i, slot, from, requested, bytes);
            && r == Ok((s.nextSequence, s.endpoints[i].waiting, receiver, Handle(slot, Allocate(s).1)))
            && after.endpoints == s.endpoints[i := Endpoint(
                 receiver, s.endpoints[i].queue + [Message(sender, s.nextSequence, r.value.3, requested, bytes)], false,
                 s.endpoints[i].caps[slot := Capability(from.target, Allocate(s).1, from.generation, from.depth + 1, requested, true)])]
  {
    CommitEffect(s, sender, receiver, i, slot, from, requested, bytes);
  }

  lemma PassedBox(eps: seq<Endpoint>, after: seq<Endpoint>, i: nat, t: nat, c: Capability)
    requires OwnersUnique(eps) && i < |eps| == |after| && eps[i].owner != 0 && t < |eps[i].caps| && !eps[i].caps[t].active && c.active
    requires after == eps[i := after[i]] && after[i].owner == eps[i].owner && after[i].caps == eps[i].caps[t := c]
    ensures eps[i].owner in Boxed(eps) && Boxed(eps)[eps[i].owner] == BoxAt(eps[i]) && t !in Boxed(eps)[eps[i].owner].caps
    ensures Boxed(after) == Boxed(eps)[eps[i].owner := Box(after[i].queue, after[i].waiting, Boxed(eps)[eps[i].owner].caps[t := c])]
  {
    BoxedPut(eps, after, i);
    ActivePut(eps[i].caps, t, c);
  }

  // ---- receiving

  ghost predicate ReceiveAllowed(v: Boxes, receiver: nat, capacity: nat, v': Boxes, r: Result<Delivery, IpcError>)
  {
    if receiver !in v then v' == v && r == Err(EndpointMissing)
    else if v[receiver].queue == [] then v' == v && r == Err(QueueEmpty)
    else
      var m := v[receiver].queue[0];
      if capacity < |m.bytes| then v' == v && r == Err(BufferTooSmall)
      else
        && r == Ok(Delivery(m.sender, m.sequence, m.handle, m.rights, m.bytes))
        && v' == v[receiver := v[receiver].(queue := v[receiver].queue[1..])]
  }

  /** A registered task gets the head of its own mailbox, all five fields, unless that is empty or longer than the buffer. */
  lemma ReceiveAnswer(s: State, receiver: nat, capacity: nat)
    requires Inv(s) && receiver != 0
    ensures ReceiveAllowed(View(s), receiver, capacity, View(ReceiveFrom(s, receiver, capacity).0), ReceiveFrom(s, receiver, capacity).1)
  {
    ViewFind(s, receiver);
    SelfAnswer(s, receiver);
    CanReceiveAnswer(s, receiver);
    var i := ReceiveCases(s, receiver, capacity);
    if ReceiveFrom(s, receiver, capacity).1.Ok? {
      BoxedPut(s.endpoints, ReceiveFrom(s, receiver, capacity).0.endpoints, i);
    }
  }

  lemma CanReceiveAnswer(s: State, receiver: nat)
    requires Inv(s) && receiver != 0
    ensures CanReceive(s, receiver) == (s, if receiver in View(s) then Ok(()) else Err(EndpointMissing))
  {
    ViewFind(s, receiver);
    SelfAnswer(s, receiver);
    if receiver in View(s) {
      assert TableOk(s.endpoints, Find(s.endpoints, receiver).value);
      ResolveNamed(s, receiver, SelfCapability(s, receiver).value, 0, {Receive});
    }
  }

  lemma WaitingAnswer(s: State, id: nat, waiting: bool)
    requires Inv(s) && id != 0
    ensures var (v, r) := (View(s), SetWaiting(s, id, waiting));
            if id !in v then r == (s, Err(EndpointMissing)) else r.1 == Ok(()) && View(r.0) == v[id := v[id].(waiting := waiting)]
  {
    ViewFind(s, id);
    if id in View(s) {
      BoxedPut(s.endpoints, SetWaiting(s, id, waiting).0.endpoints, Find(s.endpoints, id).value);
    }
  }

  // ---- a capability on its way

  /** Whatever happened while the message was queued: a handle that is received names a capability with the rights told with it. */
  lemma ReceivedResolves(s: State, receiver: nat, capacity: nat, required: Rights)
    requires Inv(s) && receiver != 0 && ReceiveFrom(s, receiver, capacity).1.Ok? && ReceiveFrom(s, receiver, capacity).1.value.handle != 0
    ensures var (after, d) := (ReceiveFrom(s, receiver, capacity).0, ReceiveFrom(s, receiver, capacity).1.value);
            Resolve(after, receiver, d.handle, required).1.Ok? <==> required <= d.rights
  {
    ReceiveKeepsInv(s, receiver, capacity);
    ReceiveAnswer(s, receiver, capacity);
    ViewFind(s, receiver);
    var (after, d) := (ReceiveFrom(s, receiver, capacity).0, ReceiveFrom(s, receiver, capacity).1.value);
    var e := s.endpoints[Find(s.endpoints, receiver).value];
    assert QueueOk(e, s.nextSequence) && AttachmentOk(e, 0);
    var t := Decode(d.handle).value.0;
    ReadableIff(d.handle);
    DecodeEncode(d.handle);
    assert Names(View(after), receiver, d.handle, t);
    ResolveNamed(after, receiver, d.handle, t, required);
  }

  /** End to end: the receiver is told the handle the transfer returned, and it resolves to the source's target with at most the rights passed on. */
  lemma TransferReceived(
    s: State, sender: nat, destination: nat, source: nat, requested: Rights, bytes: seq<Byte>, capacity: nat, required: Rights)
    requires Inv(s) && sender != 0 && Transfer(s, sender, destination, source, requested, bytes).1.Ok? && capacity >= |bytes|
    requires var to := Transfer(s, sender, destination, source, requested, bytes).1.value.2; to in View(s) && View(s)[to].queue == []
    ensures var (sent, r) := (Transfer(s, sender, destination, source, requested, bytes).0, Transfer(s, sender, destination, source, requested, bytes).1.value);
            var (after, d) := ReceiveFrom(sent, r.2, capacity);
            && d == Ok(Delivery(sender, s.nextSequence, r.3, requested, bytes))
            && (Resolve(after, r.2, r.3, required).1.Ok? <==> required <= requested)
            && (required <= requested ==>
                  Known(View(s), sender, source) && Resolve(after, r.2, r.3, required).1.value.target == Named(View(s), sender, source).target)
  {
    TransferAnswer(s, sender, destination, source, requested, bytes);
    TransferKeepsInv(s, sender, destination, source, requested, bytes);
    var (v, sent, r) := (View(s), Transfer(s, sender, destination, source, requested, bytes).0, Transfer(s, sender, destination, source, requested, bytes).1.value);
    var t, g := PassedWitness(v, s.nextSequence, sender, Named(v, sender, destination).target, Named(v, sender, source), requested, bytes, View(sent), r);
    ReceivePassed(s, sent, sender, Named(v, sender, source), requested, bytes, r, t, g, capacity, required);
  }

  lemma PassedWitness(
    v: Boxes, next: nat, sender: nat, to: nat, from: Capability, requested: Rights, bytes: seq<Byte>, v': Boxes, r: (nat, bool, nat, nat))
    returns (t: nat, g: nat)
    requires PassedSome(v, next, sender, to, from, requested, bytes, v', r)
    ensures Passed(v, next, sender, to, from, requested, bytes, v', r, t, g) && r.2 == to
  {
    t, g :| Passed(v, next, sender, to, from, requested, bytes, v', r, t, g);
  }

  lemma ReceivePassed(
    s: State, sent: State, sender: nat, from: Capability, requested: Rights, bytes: seq<Byte>, r: (nat, bool, nat, nat), t: nat, g: nat,
    capacity: nat, required: Rights)
    requires Inv(s) && Inv(sent) && Passed(View(s), s.nextSequence, sender, r.2, from, requested, bytes, View(sent), r, t, g)
    requires View(s)[r.2].queue == [] && capacity >= |bytes|
    ensures var (after, d) := ReceiveFrom(sent, r.2, capacity);
            && d == Ok(Delivery(sender, s.nextSequence, r.3, requested, bytes))
            && (Resolve(after, r.2, r.3, required).1.Ok? <==> required <= requested)
            && (required <= requested ==> Resolve(after, r.2, r.3, required).1.value.target == from.target)
  {
    KeyedKeys(s.endpoints, BoxOf());
    ReceiveAnswer(sent, r.2, capacity);
    ReceiveKeepsInv(sent, r.2, capacity);
    var after := ReceiveFrom(sent, r.2, capacity).0;
    assert Names(View(after), r.2, r.3, t);
    ResolveNamed(after, r.2, r.3, t, required);
  }
}
