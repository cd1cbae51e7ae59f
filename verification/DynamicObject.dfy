/** Dynamic Qt objects on the heap, where sender and receiver of a connection may be one object. */
module DynamicObjects {
  import opened Registry

  datatype HeapLink = HeapLink(sender: object, signalId: nat, receiver: object, slotId: nat)

  /** Qt's connection table. */
  class Connections {
    var links: seq<HeapLink>

    constructor ()
      ensures links == []
    {
      links := [];
    }

    method Add(l: HeapLink)
      modifies this
      ensures links == old(links) + [l]
    {
      links := links + [l];
    }
  }

  class DynamicObject {
    const methods: nat
    var slotIndices: map<Sig, nat>
    var slotList: seq<Slot>
    var signalIndices: map<Sig, nat>

    ghost function View(): Dyn
      reads this
    {
      Dyn(slotIndices, slotList, signalIndices)
    }

    constructor (methods: nat)
      ensures View() == NewDyn && this.methods == methods
    {
      this.methods := methods;
      slotIndices, slotList, signalIndices := map[], [], map[];
    }

    /** The index of a slot signature, assigned on first use. The tables are those of `Registry`, where
        they are proved to stay bijections over every run. */
    method SlotIndex(sig: Sig, slot: Slot) returns (id: nat)
      modifies this
      ensures View() == AddSlot(old(View()), sig, slot)
      ensures sig in slotIndices && id == slotIndices[sig]
      ensures sig in old(slotIndices) ==> id == old(slotIndices)[sig]
    {
      if sig !in slotIndices {
        slotIndices := slotIndices[sig := |slotList|];
        slotList := slotList + [slot];
      }
      id := slotIndices[sig];
    }

    /** The index of a signal signature, assigned on first use. */
    method SignalIndex(sig: Sig) returns (id: nat)
      modifies this
      ensures View() == AddSignal(old(View()), sig)
      ensures sig in signalIndices && id == signalIndices[sig]
      ensures sig in old(signalIndices) ==> id == old(signalIndices)[sig]
    {
      if sig !in signalIndices {
        signalIndices := signalIndices[sig := |signalIndices|];
      }
      id := signalIndices[sig];
    }

    /** `connectDynamicSlot`: a signal of any object to a slot of this one. `signalId` is the result of
        looking the signal up, negative when the object has none. */
    method ConnectDynamicSlot(table: Connections, obj: object, signalId: int, slotSig: Sig, slot: Slot,
                              argsOk: bool, linked: bool) returns (ok: bool)
      modifies this, table
      ensures ok == (argsOk && signalId >= 0 && linked)
      ensures View() == if argsOk && signalId >= 0 then AddSlot(old(View()), slotSig, slot) else old(View())
      ensures table.links == old(table.links) +
              if ok then [HeapLink(obj, signalId, this, slotIndices[slotSig] + methods)] else []
    {
      if !argsOk || signalId < 0 {
        return false;
      }
      var slotId := SlotIndex(slotSig, slot);
      ok := linked;
      if ok {
        table.Add(HeapLink(obj, signalId, this, slotId + methods));
      }
    }

    /** `connectDynamicSignal`: a signal of this object to a static slot. */
    method ConnectDynamicSignal(table: Connections, sig: Sig, obj: object, slotId: int,
                                argsOk: bool, linked: bool) returns (ok: bool)
      modifies this, table
      ensures ok == (argsOk && slotId >= 0 && linked)
      ensures View() == if argsOk && slotId >= 0 then AddSignal(old(View()), sig) else old(View())
      ensures table.links == old(table.links) +
              if ok then [HeapLink(this, signalIndices[sig] + methods, obj, slotId)] else []
    {
      if !argsOk || slotId < 0 {
        return false;
      }
      var signalId := SignalIndex(sig);
      ok := linked;
      if ok {
        table.Add(HeapLink(this, signalId + methods, obj, slotId));
      }
    }

    /** `connectDynamicSignalToDynamicSlot`: when both ends are one object, it gets both entries. */
    static method ConnectDynamicSignalToDynamicSlot(table: Connections, sender: DynamicObject, sig: Sig,
                                                    receiver: DynamicObject, slotSig: Sig, slot: Slot,
                                                    argsOk: bool, linked: bool) returns (ok: bool)
      modifies table, sender, receiver
      ensures ok == (argsOk && linked)
      ensures !argsOk ==> sender.View() == old(sender.View()) && receiver.View() == old(receiver.View())
      ensures argsOk && sender == receiver ==>
                sender.View() == AddSlot(AddSignal(old(sender.View()), sig), slotSig, slot)
      ensures argsOk && sender != receiver ==>
                && sender.View() == AddSignal(old(sender.View()), sig)
                && receiver.View() == AddSlot(old(receiver.View()), slotSig, slot)
      ensures table.links == old(table.links) +
              if ok then [HeapLink(sender, sender.signalIndices[sig] + sender.methods,
                                   receiver, receiver.slotIndices[slotSig] + receiver.methods)] else []
    {
      if !argsOk {
        return false;
      }
      var signalId := sender.SignalIndex(sig);
      var slotId := receiver.SlotIndex(slotSig, slot);
      ok := linked;
      if ok {
        table.Add(HeapLink(sender, signalId + sender.methods, receiver, slotId + receiver.methods));
      }
    }
  }
}
