/** The C server's table of 64 session slots: reserve, activate, find, release. */
module SessionTable {
  import opened Bytes
  import opened Errors

  const CAPACITY: nat := 64

  /** Setup and Auth carry the session id of their pending record. */
  datatype Slot<Su, Au> = Free | Reserved | Setup(sid: seq<byte>, setup: Su) | Auth(sid: seq<byte>, auth: Au)

  function FirstFree<Su, Au>(s: seq<Slot<Su, Au>>): (k: nat)
    ensures k <= |s| && (k < |s| ==> s[k].Free?) && forall i | 0 <= i < k :: !s[i].Free?
  {
    if s == [] then 0 else if s[0].Free? then 0 else 1 + FirstFree(s[1..])
  }

  predicate IsSetup<Su, Au>(slot: Slot<Su, Au>, sid: seq<byte>) {
    slot.Setup? && slot.sid == sid
  }

  predicate IsAuth<Su, Au>(slot: Slot<Su, Au>, sid: seq<byte>) {
    slot.Auth? && slot.sid == sid
  }

  class Table<Su, Au> {
    const slots: array<Slot<Su, Au>>

    ghost predicate Valid()
      reads this
    {
      slots.Length == CAPACITY
    }

    constructor ()
      ensures Valid() && fresh(slots) && forall i | 0 <= i < CAPACITY :: slots[i].Free?
    {
      slots := new Slot<Su, Au>[CAPACITY](_ => Free);
    }

    /** Takes the lowest free slot, or returns -1 and changes nothing. */
    method Reserve() returns (slot: int)
      requires Valid()
      modifies slots
      ensures var k := FirstFree(old(slots[..]));
              if k == CAPACITY then slot == -1 && slots[..] == old(slots[..])
              else slot == k && slots[..] == old(slots[..])[k := Reserved]
    {
      var i := 0;
      while i < CAPACITY
        invariant i <= CAPACITY && slots[..] == old(slots[..])
        invariant forall j | 0 <= j < i :: !slots[j].Free?
      {
        if slots[i].Free? {
          slots[i] := Reserved;
          return i;
        }
        i := i + 1;
      }
      return -1;
    }

    method Activate(slot: int, entry: Slot<Su, Au>) returns (err: Err)
      requires Valid() && (entry.Setup? || entry.Auth?)
      modifies slots
      ensures err == if 0 <= slot < CAPACITY && old(slots[..])[slot].Reserved? then Ok else InvalidArgument
      ensures slots[..] == if err == Ok then old(slots[..])[slot := entry] else old(slots[..])
    {
      if slot < 0 || slot >= CAPACITY { return InvalidArgument; }
      if !slots[slot].Reserved? { return InvalidArgument; }
      slots[slot] := entry;
      return Ok;
    }

    /** First slot in SETUP state with this session id, or -1. */
    method FindSetup(sid: seq<byte>) returns (slot: int)
      requires Valid()
      ensures slot == -1 ==> forall i | 0 <= i < CAPACITY :: !IsSetup(slots[i], sid)
      ensures slot != -1 ==> 0 <= slot < CAPACITY && IsSetup(slots[slot], sid) && forall i | 0 <= i < slot :: !IsSetup(slots[i], sid)
    {
      var i := 0;
      while i < CAPACITY
        invariant i <= CAPACITY && forall j | 0 <= j < i :: !IsSetup(slots[j], sid)
      {
        if IsSetup(slots[i], sid) { return i; }
        i := i + 1;
      }
      return -1;
    }

    method FindAuth(sid: seq<byte>) returns (slot: int)
      requires Valid()
      ensures slot == -1 ==> forall i | 0 <= i < CAPACITY :: !IsAuth(slots[i], sid)
      ensures slot != -1 ==> 0 <= slot < CAPACITY && IsAuth(slots[slot], sid) && forall i | 0 <= i < slot :: !IsAuth(slots[i], sid)
    {
      var i := 0;
      while i < CAPACITY
        invariant i <= CAPACITY && forall j | 0 <= j < i :: !IsAuth(slots[j], sid)
      {
        if IsAuth(slots[i], sid) { return i; }
        i := i + 1;
      }
      return -1;
    }

    method Release(slot: int) returns (err: Err)
      requires Valid()
      modifies slots
      ensures err == if 0 <= slot < CAPACITY then Ok else InvalidArgument
      ensures slots[..] == if err == Ok then old(slots[..])[slot := Free] else old(slots[..])
    {
      if slot < 0 || slot >= CAPACITY { return InvalidArgument; }
      slots[slot] := Free;
      return Ok;
    }
  }
}
