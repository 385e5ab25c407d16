/** The choice of the receiver that an ActiveMessage goes to. */
module Registry {
  import opened Basics

  const BROADCAST: bv16 := 0xFFFF

  /** A receiver: its unique identity, and whether it still holds its own handle. */
  class AMReceiver {
    const id: nat
    var hasHandle: bool

    constructor (id: nat)
      ensures this.id == id && hasHandle
    {
      this.id := id;
      hasHandle := true;
    }
  }

  /** What has been registered: the lookup tables hold identities, the handles their channels. */
  datatype Registered = Registered(
    receivers: map<U8, nat>, defaultReceiver: Option<nat>,
    snoopers: map<U8, nat>, defaultSnooper: Option<nat>,
    handles: set<nat>)

  const NOBODY := Registered(map[], None, map[], None, {})

  datatype Role = ReceiverFor(id: U8) | DefaultReceiver | SnooperFor(id: U8) | DefaultSnooper

  datatype Registration = Registration(role: Role, receiver: nat)

  function Register(r: Registered, reg: Registration): Registered {
    var r' := r.(handles := r.handles + {reg.receiver});
    match reg.role
    case ReceiverFor(id) => r'.(receivers := r.receivers[id := reg.receiver])
    case DefaultReceiver => r'.(defaultReceiver := Some(reg.receiver))
    case SnooperFor(id) => r'.(snoopers := r.snoopers[id := reg.receiver])
    case DefaultSnooper => r'.(defaultSnooper := Some(reg.receiver))
  }

  function RegisterAll(regs: seq<Registration>): Registered {
    if regs == [] then NOBODY else Register(RegisterAll(regs[..|regs| - 1]), regs[|regs| - 1])
  }

  function Lookup(table: map<U8, nat>, default: Option<nat>, id: U8): Option<nat> {
    if id in table then Some(table[id]) else default
  }

  /** The handle, by its owner, that a message goes to. */
  function SelectReceiver(r: Registered, addr: bv16, dest: bv16, id: U8): Option<nat> {
    var chosen :=
      if dest == BROADCAST || dest == addr then Lookup(r.receivers, r.defaultReceiver, id)
      else Lookup(r.snoopers, r.defaultSnooper, id);
    match chosen
    case Some(receiver) => if receiver in r.handles then Some(receiver) else None
    case None => None
  }

  class ReceiverRegistry {
    var receivers: map<U8, nat>
    var defaultReceiver: Option<nat>
    var snoopers: map<U8, nat>
    var defaultSnooper: Option<nat>
    var handles: set<nat>

    constructor ()
      ensures View() == NOBODY
    {
      receivers, defaultReceiver := map[], None;
      snoopers, defaultSnooper := map[], None;
      handles := {};
    }

    function View(): Registered
      reads this
    {
      Registered(receivers, defaultReceiver, snoopers, defaultSnooper, handles)
    }

    /** A receiver gives its handle away once, at its first registration. */
    method TakeHandle(receiver: AMReceiver)
      requires receiver.id in handles || receiver.hasHandle
      modifies this`handles, receiver
      ensures handles == old(handles) + {receiver.id}
      ensures receiver.hasHandle == (old(receiver.hasHandle) && receiver.id in old(handles))
    {
      if receiver.id !in handles {
        receiver.hasHandle := false;
        handles := handles + {receiver.id};
      }
    }

    method RegisterReceiver(receiver: AMReceiver, id: U8)
      requires receiver.id in handles || receiver.hasHandle
      modifies this, receiver
      ensures View() == Register(old(View()), Registration(ReceiverFor(id), receiver.id))
      ensures receiver.hasHandle == (old(receiver.hasHandle) && receiver.id in old(handles))
    {
      TakeHandle(receiver);
      receivers := receivers[id := receiver.id];
    }

    method RegisterDefaultReceiver(receiver: AMReceiver)
      requires receiver.id in handles || receiver.hasHandle
      modifies this, receiver
      ensures View() == Register(old(View()), Registration(Role.DefaultReceiver, receiver.id))
      ensures receiver.hasHandle == (old(receiver.hasHandle) && receiver.id in old(handles))
    {
      TakeHandle(receiver);
      defaultReceiver := Some(receiver.id);
    }

    method RegisterSnooper(receiver: AMReceiver, id: U8)
      requires receiver.id in handles || receiver.hasHandle
      modifies this, receiver
      ensures View() == Register(old(View()), Registration(SnooperFor(id), receiver.id))
      ensures receiver.hasHandle == (old(receiver.hasHandle) && receiver.id in old(handles))
    {
      TakeHandle(receiver);
      snoopers := snoopers[id := receiver.id];
    }

    method RegisterDefaultSnooper(receiver: AMReceiver)
      requires receiver.id in handles || receiver.hasHandle
      modifies this, receiver
      ensures View() == Register(old(View()), Registration(Role.DefaultSnooper, receiver.id))
      ensures receiver.hasHandle == (old(receiver.hasHandle) && receiver.id in old(handles))
    {
      TakeHandle(receiver);
      defaultSnooper := Some(receiver.id);
    }
  }

  /** The last receiver registered for a role, if any. */
  function LastFor(regs: seq<Registration>, role: Role): Option<nat> {
    if regs == [] then None
    else if regs[|regs| - 1].role == role then Some(regs[|regs| - 1].receiver)
    else LastFor(regs[..|regs| - 1], role)
  }

  /** It is the receiver of a registration for the role after which no other for that role follows. */
  lemma {:induction false} LastForIff(regs: seq<Registration>, role: Role, receiver: nat)
    ensures LastFor(regs, role) == Some(receiver) <==>
              exists i :: 0 <= i < |regs| && regs[i] == Registration(role, receiver)
                && forall j :: i < j < |regs| ==> regs[j].role != role
    ensures LastFor(regs, role) == None <==> forall i :: 0 <= i < |regs| ==> regs[i].role != role
  {
    if regs != [] {
      var n := |regs| - 1;
      LastForIff(regs[..n], role, receiver);
      assert forall i :: 0 <= i < n ==> regs[..n][i] == regs[i];
      if regs[n].role == role {
        assert LastFor(regs, role) == Some(regs[n].receiver);
      } else if LastFor(regs, role) == Some(receiver) {
        var i :| 0 <= i < n && regs[..n][i] == Registration(role, receiver)
          && forall j :: i < j < n ==> regs[..n][j].role != role;
        assert regs[i] == Registration(role, receiver);
      }
    }
  }

  function OrElse(first: Option<nat>, second: Option<nat>): Option<nat> {
    if first.Some? then first else second
  }

  /**
   Selection by history: a message for this address or for everybody goes to the last receiver
   registered for its AM identifier, else to the last default receiver; any other message to the
   snoopers in the same way. A registered receiver always has its handle.
   */
  lemma {:induction false} SelectedByHistory(regs: seq<Registration>, addr: bv16, dest: bv16, id: U8)
    ensures SelectReceiver(RegisterAll(regs), addr, dest, id)
         == if dest == 0xFFFF || dest == addr
            then OrElse(LastFor(regs, ReceiverFor(id)), LastFor(regs, DefaultReceiver))
            else OrElse(LastFor(regs, SnooperFor(id)), LastFor(regs, DefaultSnooper))
  {
    TablesByHistory(regs, id);
  }

  lemma {:induction false} TablesByHistory(regs: seq<Registration>, id: U8)
    ensures var r := RegisterAll(regs);
            && LastFor(regs, ReceiverFor(id)) == Lookup(r.receivers, None, id)
            && LastFor(regs, DefaultReceiver) == r.defaultReceiver
            && LastFor(regs, SnooperFor(id)) == Lookup(r.snoopers, None, id)
            && LastFor(regs, DefaultSnooper) == r.defaultSnooper
            && (id in r.receivers ==> r.receivers[id] in r.handles)
            && (r.defaultReceiver.Some? ==> r.defaultReceiver.value in r.handles)
            && (id in r.snoopers ==> r.snoopers[id] in r.handles)
            && (r.defaultSnooper.Some? ==> r.defaultSnooper.value in r.handles)
  {
    if regs != [] {
      TablesByHistory(regs[..|regs| - 1], id);
    }
  }
}
