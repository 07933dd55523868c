/**
  The producer's side of the ring, as it is: counts, slots and the two fences a copy leaves
  behind, changed in place. The state machine's Claim, Drain and waits are these methods.
 */
module QueueRing {
  import opened PendingCopies
  import opened RenderQueue

  /** What claim_slot writes before the caller fills in the command. */
  datatype Header = Header(num: nat, fence: nat, near: nat)

  class CommandRing {
    var published: nat
    const ran: array<nat>  // one count a worker; each only rises, never past published
    const slot: array<Header>
    var floor: nat
    var fenceAfter: nat
    var nearAfter: nat

    ghost predicate Valid()
      reads this, ran
    {
      && slot.Length == QUEUE_CAP && 0 < ran.Length
      && (forall i | 0 <= i < ran.Length :: floor <= ran[i] <= published)
      && floor <= published <= floor + QUEUE_CAP
    }

    constructor (workers: nat)
      requires 0 < workers
      ensures Valid() && published == 0 && fenceAfter == 0 && nearAfter == 0 && fresh(ran) && fresh(slot)
    {
      ran := new nat[workers](_ => 0);
      slot := new Header[QUEUE_CAP](_ => Header(0, 0, 0));
      published, floor, fenceAfter, nearAfter := 0, 0, 0, 0;
    }

    /** The oldest command some worker has not finished. */
    method RanMin() returns (m: nat)
      requires Valid()
      ensures floor <= m <= published && forall i | 0 <= i < ran.Length :: m <= ran[i]
      ensures m == published || exists i | 0 <= i < ran.Length :: m == ran[i]
    {
      m := published;
      var i := 0;
      while i < ran.Length
        invariant 0 <= i <= ran.Length && floor <= m <= published
        invariant forall j | 0 <= j < i :: m <= ran[j]
        invariant m == published || exists j | 0 <= j < i :: m == ran[j]
      {
        if ran[i] < m {
          m := ran[i];
        }
        i := i + 1;
      }
    }

    /** Wait until every worker has finished command c; a command not yet published is not
        waited for. While the producer waits, the workers' counts rise. */
    method WaitRan(c: nat)
      requires Valid()
      modifies ran
      ensures Valid()
      ensures forall i | 0 <= i < ran.Length :: old(ran[i]) <= ran[i]
      ensures c < published ==> forall i | 0 <= i < ran.Length :: c < ran[i]
      ensures published <= c ==> ran[..] == old(ran[..])
    {
      if published <= c {
        return;
      }
      var i := 0;
      while i < ran.Length
        invariant 0 <= i <= ran.Length
        invariant forall j | 0 <= j < ran.Length :: old(ran[j]) <= ran[j] <= published
        invariant forall j | 0 <= j < i :: c < ran[j]
      {
        while ran[i] <= c
          invariant forall j | 0 <= j < ran.Length :: old(ran[j]) <= ran[j] <= published
          invariant forall j | 0 <= j < i :: c < ran[j]
          decreases c - ran[i]
        {
          ran[i] := ran[i] + 1;  // worker i finishes a command
        }
        i := i + 1;
      }
    }

    /** The one place a slot is taken. */
    method ClaimSlot(want: nat, wantNear: nat) returns (k: nat)
      requires Valid()
      modifies this`floor, this`fenceAfter, this`nearAfter, ran, slot
      ensures Valid() && published == old(published) && k == SlotOf(published)
      // the slot is the command's, with the machine's fences
      ensures var fence := FenceOf(published, want, old(fenceAfter));
              slot[k] == Header(published, fence, NearOf(published, wantNear, old(nearAfter), fence))
      ensures forall j | 0 <= j < slot.Length && j != k :: slot[j] == old(slot[j])
      // no worker still runs the command that was there
      ensures published < floor + QUEUE_CAP
      ensures forall i | 0 <= i < ran.Length :: old(ran[i]) <= ran[i] && published < ran[i] + QUEUE_CAP
      // what the last copy asked of the command after it is spent
      ensures fenceAfter == nearAfter == 0
    {
      if published - floor >= QUEUE_CAP {
        floor := RanMin();
        if published - floor >= QUEUE_CAP {
          WaitRan(published - QUEUE_CAP);
          floor := RanMin();
        }
      }
      var fence := Max(want, fenceAfter);
      if fence > published {
        fence := published;
      }
      var near := Max(wantNear, nearAfter);
      if near > published {
        near := published;
      }
      k := SlotOf(published);
      slot[k] := Header(published, fence, if near > fence then near else 0);
      fenceAfter, nearAfter := 0, 0;
    }

    method Publish()
      requires Valid() && published < floor + QUEUE_CAP
      modifies this`published
      ensures Valid() && published == old(published) + 1
    {
      published := published + 1;
    }

    /** Wait for everything queued. */
    method Drain()
      requires Valid()
      modifies this`floor, ran
      ensures Valid() && floor == published
      ensures forall i | 0 <= i < ran.Length :: ran[i] == published
    {
      if 0 < published {
        WaitRan(published - 1);
      }
      floor := published;
    }
  }
}
