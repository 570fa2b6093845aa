/** A growable slice of ids over one backing array, with the in-place edits the
    repository makes: append, remove by shifting left, open a gap by shifting right. */
module IdSlices {
  import opened ChecklistTable
  import opened ChecklistDomain
  import Ops = ChecklistOps

  class IdSlice {
    var data: array<Id>
    var len: nat

    ghost predicate Valid()
      reads this
    {
      len <= data.Length
    }

    ghost function Contents(): seq<Id>
      reads this, data
      requires Valid()
    {
      data[..len]
    }

    constructor ()
      ensures Valid() && fresh(data) && Contents() == []
    {
      data := new Id[0];
      len := 0;
    }

    // append(ids, x): a full array is replaced by a larger copy.
    method Append(x: Id)
      requires Valid()
      modifies this, data
      ensures Valid() && (data == old(data) || fresh(data))
      ensures Contents() == old(Contents()) + [x]
    {
      if len == data.Length {
        var bigger := new Id[2 * len + 1];
        for k := 0 to len
          invariant Valid() && data == old(data) && len == old(len) && data[..len] == old(Contents())
          invariant bigger[..k] == data[..k]
        {
          bigger[k] := data[k];
        }
        data := bigger;
      }
      data[len] := x;
      len := len + 1;
    }

    // append(ids[:i], ids[i+1:]...): the tail moves one place left, lowest first.
    method RemoveAt(i: nat)
      requires Valid() && i < len
      modifies this, data
      ensures Valid() && data == old(data)
      ensures Contents() == Ops.RemoveAt(old(Contents()), i)
    {
      var k := i;
      while k + 1 < len
        invariant data == old(data) && i <= k < len == old(len) <= data.Length
        invariant forall m :: 0 <= m < i ==> data[m] == old(data[m])
        invariant forall m :: i <= m < k ==> data[m] == old(data[m + 1])
        invariant forall m :: k < m < len ==> data[m] == old(data[m])
      {
        data[k] := data[k + 1];
        k := k + 1;
      }
      len := len - 1;
    }

    // copy(ids[pos+1:], ids[pos:]): the ranges overlap, so the highest moves first.
    method CopyRight(pos: nat)
      requires Valid() && pos < len
      modifies data
      ensures Contents() == old(Contents())[..pos + 1] + old(Contents())[pos..len - 1]
    {
      var k := len - 1;
      while pos < k
        invariant pos <= k < len <= data.Length
        invariant forall m :: 0 <= m <= k ==> data[m] == old(data[m])
        invariant forall m :: k < m < len ==> data[m] == old(data[m - 1])
      {
        data[k] := data[k - 1];
        k := k - 1;
      }
    }

    // Open a gap with an empty id, shift, and put the id in the gap.
    method InsertAt(pos: nat, id: Id)
      requires Valid() && pos <= len
      modifies this, data
      ensures Valid() && (data == old(data) || fresh(data))
      ensures Contents() == Ops.InsertAt(old(Contents()), pos, id)
    {
      Append(NO_ID);
      CopyRight(pos);
      data[pos] := id;
    }
  }
}
