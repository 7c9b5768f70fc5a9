/** Descriptors: a header and a linked list of records, with the operations that set the record count and
    copy one descriptor to another. */
module Descriptor {
  import opened Wrappers
  import opened CStrings

  datatype DescriptorType = ARD | APD | IRD | IPD | UnknownType
  datatype RecordListType = LinkedList | ArrayList
  datatype Code = Success | InvalidHandle | Error(state: string)

  datatype Header = Header(valid: bool, allocType: int, highestCount: int, arraySize: int, bindType: int)

  /** The fields of a record other than its number and its data-at-execution state. */
  datatype Fields = Fields(hType: int, conciseType: int, inOutType: int, value: int, length: int)

  datatype RecordValue = RecordValue(number: int, fields: Fields, dataAtExec: bool)

  const SQL_C_DEFAULT := 99
  const SQL_PARAM_INPUT := 1

  /** A list node. */
  class Record {
    const number: int
    var fields: Fields
    var dataAtExec: bool
    var next: Record?

    constructor (number: int, fields: Fields)
      ensures this.number == number && this.fields == fields && !dataAtExec && next == null
    {
      this.number, this.fields, this.dataAtExec, this.next := number, fields, false, null;
    }

    ghost function Value(): RecordValue
      reads this
    {
      RecordValue(number, fields, dataAtExec)
    }
  }

  /** A record that has just been allocated for a descriptor. */
  function FreshFields(t: DescriptorType): Fields {
    var c := if t == ARD || t == APD then SQL_C_DEFAULT else 0;
    Fields(c, c, if t == IPD then SQL_PARAM_INPUT else 0, 0, 0)
  }

  ghost function ValuesOf(nodes: seq<Record>): seq<RecordValue>
    reads nodes
  {
    seq(|nodes|, i requires 0 <= i < |nodes| reads nodes => nodes[i].Value())
  }

  /** The first record with the number. */
  function Lookup(records: seq<RecordValue>, n: int): Option<RecordValue> {
    if records == [] then None
    else
      var earlier := Lookup(records[..|records| - 1], n);
      if earlier.Some? then earlier
      else if records[|records| - 1].number == n then Some(records[|records| - 1])
      else None
  }

  predicate HasNumber(records: seq<RecordValue>, n: int) {
    exists i :: 0 <= i < |records| && records[i].number == n
  }

  /** The records numbered at most `n`, in order. */
  function AtMost(records: seq<RecordValue>, n: int): seq<RecordValue> {
    if records == [] then []
    else
      AtMost(records[..|records| - 1], n)
      + if records[|records| - 1].number <= n then [records[|records| - 1]] else []
  }

  function NodesAtMost(nodes: seq<Record>, n: int): seq<Record> {
    if nodes == [] then []
    else NodesAtMost(nodes[..|nodes| - 1], n) + if nodes[|nodes| - 1].number <= n then [nodes[|nodes| - 1]] else []
  }

  /** Copies without the data-at-execution state. */
  function Cleared(records: seq<RecordValue>): seq<RecordValue> {
    seq(|records|, i requires 0 <= i < |records| => records[i].(dataAtExec := false))
  }

  class Descriptor {
    var iType: DescriptorType
    var recListType: RecordListType
    var header: Header
    var head: Record?
    ghost var spine: seq<Record>

    ghost predicate Valid()
      reads this, spine
    {
      && (head == null <==> spine == [])
      && (spine != [] ==> head == spine[0] && spine[|spine| - 1].next == null)
      && (forall i :: 0 <= i < |spine| - 1 ==> spine[i].next == spine[i + 1])
      && (forall i, j :: 0 <= i < j < |spine| ==> spine[i] != spine[j])
    }

    ghost function Contents(): seq<RecordValue>
      reads this, spine
    {
      ValuesOf(spine)
    }

    constructor (iType: DescriptorType, allocType: int)
      ensures Valid() && spine == [] && this.iType == iType && recListType == LinkedList
      ensures header == Header(true, allocType, 0, 1, 0)
    {
      this.iType, recListType, header, head, spine := iType, LinkedList, Header(true, allocType, 0, 1, 0), null, [];
    }

    /** `findDescRec`: the first record with the number. */
    method FindDescRec(n: int) returns (rec: Record?, ghost k: nat)
      requires Valid()
      ensures rec == null ==> forall i :: 0 <= i < |spine| ==> spine[i].number != n
      ensures rec != null ==> k < |spine| && rec == spine[k] && rec.number == n
      ensures rec != null ==> forall i :: 0 <= i < k ==> spine[i].number != n
    {
      rec, k := head, 0;
      while rec != null
        invariant k <= |spine| && rec == if k < |spine| then spine[k] else null
        invariant forall i :: 0 <= i < k ==> spine[i].number != n
        decreases |spine| - k
      {
        if rec.number == n {
          break;
        }
        rec, k := rec.next, k + 1;
      }
    }

    /** `findHighestRecCount`. */
    method FindHighestRecCount() returns (highest: int)
      requires Valid()
      ensures highest >= 0 && forall i :: 0 <= i < |spine| ==> spine[i].number <= highest
      ensures highest == 0 || exists i :: 0 <= i < |spine| && spine[i].number == highest
    {
      highest := 0;
      var rec := head;
      ghost var k := 0;
      while rec != null
        invariant k <= |spine| && rec == if k < |spine| then spine[k] else null
        invariant highest >= 0 && forall i :: 0 <= i < k ==> spine[i].number <= highest
        invariant highest == 0 || exists i :: 0 <= i < k && spine[i].number == highest
        decreases |spine| - k
      {
        if rec.number > highest {
          highest := rec.number;
        }
        rec, k := rec.next, k + 1;
      }
    }

    /** `addDescriptorRec`: puts a record at the front or at the end. */
    method AddDescriptorRec(rec: Record, atFront: bool)
      requires Valid() && rec !in spine && (atFront || rec.next == null)
      modifies this`head, this`spine, rec`next, (set r | r in spine)`next
      ensures Valid()
      ensures spine == if atFront then [rec] + old(spine) else old(spine) + [rec]
    {
      if atFront {
        rec.next := head;
        head := rec;
        spine := [rec] + spine;
      } else {
        if head == null {
          head := rec;
        } else {
          var prev, cur: Record? := head, head;
          ghost var k := 0;
          while cur != null
            invariant k <= |spine| && cur == (if k < |spine| then spine[k] else null)
            invariant prev == spine[if k == 0 then 0 else k - 1]
            decreases |spine| - k
          {
            prev := cur;
            cur, k := cur.next, k + 1;
          }
          prev.next := rec;
        }
        spine := spine + [rec];
      }
    }

    /** `releaseDescriptorRec`: unlinks and frees one node; records in an array stay. */
    method ReleaseDescriptorRec(rec: Record, ghost at: nat)
      requires Valid()
      requires at < |spine| && rec == spine[at]
      modifies this`head, this`spine, (set r | r in spine)`next
      ensures Valid() && (forall r :: r in spine ==> r in old(spine))
      ensures spine == if recListType == LinkedList then old(spine)[..at] + old(spine)[at + 1..] else old(spine)
    {
      if recListType == LinkedList {
        Unlink(rec, at);
      }
    }

    method Unlink(rec: Record, ghost at: nat)
      requires Valid()
      requires at < |spine| && rec == spine[at]
      modifies this`head, this`spine, (set r | r in spine)`next
      ensures Valid()
      ensures spine == old(spine)[..at] + old(spine)[at + 1..]
    {
      var cur, prev: Record? := head, null;
      ghost var k := 0;
      while cur != rec
        invariant k <= at && cur == spine[k]
        invariant prev == (if k == 0 then null else spine[k - 1])
        decreases at - k
      {
        prev := cur;
        cur, k := cur.next, k + 1;
      }
      if prev == null {
        head := head.next;
      } else {
        prev.next := cur.next;
      }
      ghost var after := if at + 1 < |spine| then spine[at + 1] else null;
      assert if at == 0 then head == after else spine[at - 1].next == after;
      cur.next := null;
      ghost var nodes := spine;
      spine := spine[..at] + spine[at + 1..];
      assert forall i :: 0 <= i < |spine| ==> spine[i] == nodes[if i < at then i else i + 1];
      assert forall i :: 0 <= i < |nodes| && i != at && i != at - 1 ==> nodes[i].next == old(nodes[i].next);
    }

    /** `releaseDescriptorRecs`. */
    method ReleaseDescriptorRecs()
      modifies this`head, this`spine
      ensures Valid() && spine == []
    {
      head, spine := null, [];
    }

    /** `checkAndAddDescRec`: the record with the number; a missing one is added unless the records are an
        array. */
    method CheckAndAddDescRec(n: int, atFront: bool) returns (rec: Record?)
      requires Valid()
      modifies this`head, this`spine, (set r | r in spine)`next
      ensures Valid()
      ensures rec != null ==> rec.number == n && rec in spine
      ensures rec == null ==> recListType == ArrayList
      ensures HasNumber(old(Contents()), n) || recListType == ArrayList ==> spine == old(spine)
      ensures !HasNumber(old(Contents()), n) && recListType != ArrayList ==>
              && rec != null && fresh(rec)
              && rec.Value() == RecordValue(n, FreshFields(iType), false)
              && spine == if atFront then [rec] + old(spine) else old(spine) + [rec]
    {
      ghost var k;
      rec, k := FindDescRec(n);
      if rec != null {
        assert Contents()[k].number == n;
      } else if recListType != ArrayList {
        rec := new Record(n, FreshFields(iType));
        AddDescriptorRec(rec, atFront);
      }
    }

    /** `RS_SQLSetDescField` for `SQL_DESC_COUNT`. */
    method SetCount(value: int, internal: bool) returns (rc: Code)
      requires Valid()
      modifies this`header, this`head, this`spine, (set r | r in spine)`next
      ensures Valid()
      ensures rc == CountCode(old(header).valid, iType, recListType, ToShort(value), internal)
      ensures rc != Success ==> header == old(header) && spine == old(spine)
      ensures rc == Success ==> header == old(header).(highestCount := ToShort(value))
      ensures rc == Success && recListType == LinkedList ==>
              Contents() == AfterCount(old(Contents()), ToShort(value), iType)
      ensures rc == Success && recListType == ArrayList ==> Contents() == old(Contents())
    {
      if !internal && iType == IRD {
        return Error("HY016");
      }
      if !header.valid {
        return Error("HY000");
      }
      var count := ToShort(value);
      var zeroAllowed := (iType == APD || iType == ARD) && recListType == LinkedList;
      if count < 0 || (count == 0 && !zeroAllowed) {
        return Error("HY024");
      }
      header := header.(highestCount := count);
      ApplyCount(count);
      rc := Success;
    }

    /** Provides the record of the count and drops the records above it. */
    method ApplyCount(count: int)
      requires Valid() && count >= 0
      modifies this`head, this`spine, (set r | r in spine)`next
      ensures Valid()
      ensures recListType == LinkedList ==> Contents() == AfterCount(old(Contents()), count, iType)
      ensures recListType == ArrayList ==> Contents() == old(Contents())
    {
      AtMostWithCount(Contents(), count, iType);
      AddMissing(count);
      DropAbove(count);
    }

    /** Drops the records above the count. */
    method DropAbove(count: int)
      requires Valid()
      modifies this`head, this`spine, (set r | r in spine)`next
      ensures Valid()
      ensures recListType == LinkedList ==> Contents() == AtMost(old(Contents()), count)
      ensures recListType == ArrayList ==> Contents() == old(Contents())
    {
      ghost var nodes, before := spine, Contents();
      RemoveAbove(count);
      assert ValuesOf(nodes) == before;
      if recListType == LinkedList {
        ValuesAtMost(nodes, count);
      }
    }

    /** Adds the record with the number of the count at the front, if it is missing. */
    method AddMissing(count: int)
      requires Valid()
      modifies this`head, this`spine, (set r | r in spine)`next
      ensures Valid() && (forall r :: r in spine ==> r in old(spine) || fresh(r))
      ensures recListType == ArrayList ==> spine == old(spine)
      ensures recListType == LinkedList ==> Contents() == WithRecord(old(Contents()), count, iType)
    {
      ghost var before := Contents();
      if count != 0 {
        var rec := CheckAndAddDescRec(count, true);
        if spine != old(spine) {
          assert Contents() == [rec.Value()] + before;
        } else {
          assert Contents() == before;
        }
      }
    }

    /** The loop that removes the records above the count. */
    method RemoveAbove(count: int)
      requires Valid()
      modifies this`head, this`spine, (set r | r in spine)`next
      ensures Valid()
      ensures recListType == LinkedList ==> spine == NodesAtMost(old(spine), count)
      ensures recListType == ArrayList ==> spine == old(spine)
    {
      ghost var nodes, k, kept: seq<Record> := spine, 0, [];
      var cur := head;
      assert nodes[..0] == [];
      while cur != null
        invariant Valid() && k <= |nodes| && cur == (if k < |nodes| then nodes[k] else null)
        invariant spine == kept + nodes[k..]
        invariant kept == KeptNodes(nodes[..k], recListType, count)
        invariant forall r :: r in spine ==> r in nodes
        decreases |nodes| - k
      {
        cur, kept := VisitRecord(cur, count, kept, nodes, k);
        k := k + 1;
      }
      assert nodes[..k] == nodes;
    }

    /** Removes one record or passes over it; the successor is read first. */
    method VisitRecord(cur: Record, count: int, ghost kept: seq<Record>, ghost nodes: seq<Record>, ghost k: nat)
      returns (next: Record?, ghost kept': seq<Record>)
      requires Valid() && k < |nodes| && cur == nodes[k] && spine == kept + nodes[k..]
      requires kept == KeptNodes(nodes[..k], recListType, count)
      modifies this`head, this`spine, (set r | r in spine)`next
      ensures Valid() && (forall r :: r in spine ==> r in old(spine))
      ensures spine == kept' + nodes[k + 1..]
      ensures kept' == KeptNodes(nodes[..k + 1], recListType, count)
      ensures next == if k + 1 < |nodes| then nodes[k + 1] else null
    {
      NextNode(spine, kept, nodes, k);
      PassNode(spine, kept, nodes, k, recListType, count);
      next, kept' := cur.next, kept + KeptNode(cur, recListType, count);
      if cur.number > count {
        ReleaseDescriptorRec(cur, |kept|);
      }
    }

    /** `RS_SQLGetDescField` for `SQL_DESC_COUNT`. */
    method GetCount() returns (rc: Code, count: int)
      requires Valid()
      modifies this`header
      ensures Valid()
      ensures rc == if header.valid then Success else Error("HY000")
      ensures rc != Success ==> header == old(header)
      ensures rc == Success ==> header == old(header).(highestCount := count)
      ensures rc == Success && old(header).highestCount != 0 ==> count == old(header).highestCount
      ensures rc == Success && old(header).highestCount == 0 ==>
              IsHighest(Contents(), count)
    {
      rc, count := Error("HY000"), 0;
      if header.valid {
        if header.highestCount == 0 {
          var highest := FindHighestRecCount();
          assert forall i :: 0 <= i < |spine| ==> Contents()[i].number == spine[i].number;
          header := header.(highestCount := highest);
        }
        rc, count := Success, header.highestCount;
      }
    }

    /** The count that was set is the count that is read back. */
    method SetThenGetCount(value: int, internal: bool) returns (rc: Code, count: int)
      requires Valid()
      modifies this`header, this`head, this`spine, (set r | r in spine)`next
      ensures rc == CountCode(old(header).valid, iType, recListType, ToShort(value), internal)
      ensures rc == Success ==> count == ToShort(value)
    {
      count := 0;
      rc := SetCount(value, internal);
      if rc == Success {
        rc, count := GetCount();
        AtMostBound(old(Contents()), 0);
        assert forall i :: 0 <= i < |spine| ==> Contents()[i].number == spine[i].number;
      }
    }

    /** `RS_SQLCopyDesc` into this descriptor. */
    method CopyDesc(src: Descriptor?, internal: bool) returns (rc: Code)
      requires src != null ==> src.Valid()
      modifies this
      ensures rc == Success || rc == InvalidHandle || rc == Error("HY016")
      ensures rc == InvalidHandle <==> src == null
      ensures rc == Error("HY016") <==> src != null && !internal && (old(iType) == IRD || old(iType) == IPD)
      ensures rc != Success ==> unchanged(this)
      ensures rc == Success ==> Valid() && recListType == LinkedList
      ensures rc == Success ==> header.allocType == old(header.allocType)
      ensures rc == Success && old(header.valid) && old(src.header.valid) ==>
                && header.valid
                && header.highestCount == old(src.header.highestCount)
                && header.arraySize == old(src.header.arraySize)
                && header.bindType == old(src.header.bindType)
      ensures rc == Success && !(old(header.valid) && old(src.header.valid)) ==> header == old(header)
      ensures rc == Success ==> iType == if old(iType) == UnknownType then old(src.iType) else old(iType)
      ensures rc == Success && src != this ==> Contents() == Cleared(old(src.Contents()))
      ensures rc == Success && src == this ==> Contents() == []
    {
      if src == null {
        return InvalidHandle;
      }
      if !internal && (iType == IRD || iType == IPD) {
        return Error("HY016");
      }
      if header.valid && src.header.valid {
        header := src.header.(allocType := header.allocType);
      }
      ReleaseDescriptorRecs();
      recListType := LinkedList;
      if iType == UnknownType {
        iType := src.iType;
      }
      CopyRecords(src);
      rc := Success;
    }

    /** After a copy between valid descriptors, both answer the same count. */
    method CopyThenGetCounts(src: Descriptor, internal: bool) returns (rc: Code, mine: int, theirs: int)
      requires src.Valid() && src != this
      modifies this, src`header
      ensures rc == Success <==> internal || (old(iType) != IRD && old(iType) != IPD)
      ensures rc == Success && old(header.valid) && old(src.header.valid) ==> mine == theirs
    {
      mine, theirs := 0, 0;
      rc := CopyDesc(src, internal);
      if rc == Success {
        hide IsHighest, Cleared, ValuesOf;
        ghost var records := src.Contents();
        var code;
        code, mine := GetCount();
        code, theirs := src.GetCount();
        assert src.Contents() == records && Contents() == Cleared(records);
        SameHighest(records, mine, theirs);
      }
    }

    /** Appends a copy of every record of the source. */
    method CopyRecords(src: Descriptor)
      requires Valid() && src.Valid() && spine == []
      modifies this`head, this`spine
      ensures Valid() && src.spine == old(src.spine)
      ensures Contents() == Cleared(old(src.Contents()))
    {
      var cur := src.head;
      ghost var k := 0;
      while cur != null
        invariant Valid() && k <= |old(src.spine)| && |spine| == k
        invariant cur == if k < |old(src.spine)| then old(src.spine)[k] else null
        invariant forall i :: 0 <= i < k ==> fresh(spine[i])
        invariant forall i :: 0 <= i < k ==> spine[i].Value() == old(src.spine[i].Value()).(dataAtExec := false)
        decreases |old(src.spine)| - k
      {
        var next := cur.next;
        var rec := new Record(cur.number, cur.fields);
        AddDescriptorRec(rec, false);
        cur, k := next, k + 1;
      }
    }
  }

  function KeptNode(r: Record, list: RecordListType, n: int): seq<Record> {
    if list == LinkedList && r.number > n then [] else [r]
  }

  /** What the removal loop leaves of these nodes. */
  function KeptNodes(nodes: seq<Record>, list: RecordListType, n: int): seq<Record> {
    if list == LinkedList then NodesAtMost(nodes, n) else nodes
  }

  lemma NextNode(spine: seq<Record>, kept: seq<Record>, nodes: seq<Record>, k: nat)
    requires k < |nodes| && spine == kept + nodes[k..]
    ensures |kept| < |spine| && spine[|kept|] == nodes[k]
    ensures k + 1 < |nodes| <==> |kept| + 1 < |spine|
    ensures k + 1 < |nodes| ==> spine[|kept| + 1] == nodes[k + 1]
    ensures spine[..|kept|] + spine[|kept| + 1..] == kept + nodes[k + 1..]
    ensures spine == kept + [nodes[k]] + nodes[k + 1..]
  {
  }

  /** Removing the node, or leaving it, makes up the list for the next step. */
  lemma PassNode(spine: seq<Record>, kept: seq<Record>, nodes: seq<Record>, k: nat, list: RecordListType, n: int)
    requires k < |nodes| && spine == kept + nodes[k..] && kept == KeptNodes(nodes[..k], list, n)
    ensures kept + KeptNode(nodes[k], list, n) == KeptNodes(nodes[..k + 1], list, n)
    ensures kept + KeptNode(nodes[k], list, n) + nodes[k + 1..] ==
            if list == LinkedList && nodes[k].number > n then spine[..|kept|] + spine[|kept| + 1..] else spine
  {
    NextNode(spine, kept, nodes, k);
    NodesStep(nodes, k, list, n);
    assert kept + [] == kept;
  }

  lemma NodesStep(nodes: seq<Record>, k: nat, list: RecordListType, n: int)
    requires k < |nodes|
    ensures KeptNodes(nodes[..k + 1], list, n) == KeptNodes(nodes[..k], list, n) + KeptNode(nodes[k], list, n)
  {
    assert nodes[..k + 1][..k] == nodes[..k];
    assert nodes[..k + 1] == nodes[..k] + [nodes[k]];
  }

  lemma {:induction false} ValuesAtMost(nodes: seq<Record>, n: int)
    ensures ValuesOf(NodesAtMost(nodes, n)) == AtMost(ValuesOf(nodes), n)
  {
    if nodes != [] {
      ValuesAtMost(nodes[..|nodes| - 1], n);
      assert ValuesOf(nodes)[..|nodes| - 1] == ValuesOf(nodes[..|nodes| - 1]);
    }
  }

  lemma {:induction false} AtMostFront(first: RecordValue, records: seq<RecordValue>, n: int)
    requires first.number <= n
    ensures AtMost([first] + records, n) == [first] + AtMost(records, n)
  {
    var all := [first] + records;
    if records == [] {
      assert all[..|all| - 1] == [];
    } else {
      assert all[..|all| - 1] == [first] + records[..|records| - 1];
      AtMostFront(first, records[..|records| - 1], n);
    }
  }

  /** The records with one more at the front, if it is missing. */
  function WithRecord(records: seq<RecordValue>, n: int, t: DescriptorType): seq<RecordValue> {
    if n == 0 || HasNumber(records, n) then records else [RecordValue(n, FreshFields(t), false)] + records
  }

  lemma AtMostWithCount(records: seq<RecordValue>, n: int, t: DescriptorType)
    requires n >= 0
    ensures AtMost(WithRecord(records, n, t), n) == AfterCount(records, n, t)
  {
    AtMostFront(RecordValue(n, FreshFields(t), false), records, n);
    assert [] + AtMost(records, n) == AtMost(records, n);
  }

  /** The outcome of setting the count: a negative count is refused, and so is 0 except for the
      application descriptors with a linked list. */
  function CountCode(valid: bool, t: DescriptorType, list: RecordListType, count: int, internal: bool): Code {
    if t == IRD && !internal then Error("HY016")
    else if !valid then Error("HY000")
    else if count > 0 || (count == 0 && (t == APD || t == ARD) && list == LinkedList) then Success
    else Error("HY024")
  }

  /** The codes of setting the count, in the order of precedence, and success otherwise. */
  lemma CountCodeMeans(valid: bool, t: DescriptorType, list: RecordListType, count: int, internal: bool)
    ensures var rc := CountCode(valid, t, list, count, internal);
            var implementation := t == IRD && !internal;
            var zeroAllowed := t in {ARD, APD} && list == LinkedList;
            && rc in {Success, Error("HY016"), Error("HY000"), Error("HY024")}
            && (rc == Error("HY016") <==> implementation)
            && (rc == Error("HY000") <==> !implementation && !valid)
            && (rc == Success <==> !implementation && valid && count >= 0 && (zeroAllowed || count > 0))
  {
  }

  /** A fresh record: application descriptors start with the default C type 99, and only parameters of an
      implementation descriptor have a direction, which is input. */
  lemma FreshFieldsMean(t: DescriptorType)
    ensures FreshFields(t).hType == FreshFields(t).conciseType
    ensures FreshFields(t).conciseType == 99 <==> t in {ARD, APD}
    ensures FreshFields(t).conciseType == 0 <==> t in {IRD, IPD, UnknownType}
    ensures FreshFields(t).inOutType == 1 <==> t == IPD
    ensures FreshFields(t).inOutType in {0, 1} && FreshFields(t).value == 0 && FreshFields(t).length == 0
  {
  }

  /** The highest record number, or 0. */
  ghost predicate IsHighest(records: seq<RecordValue>, n: int) {
    && n >= 0
    && (forall i :: 0 <= i < |records| ==> records[i].number <= n)
    && (n == 0 || exists i :: 0 <= i < |records| && records[i].number == n)
  }

  lemma SameHighest(records: seq<RecordValue>, m: int, n: int)
    ensures IsHighest(Cleared(records), m) && IsHighest(records, n) ==> m == n
  {
    assert forall i :: 0 <= i < |records| ==> Cleared(records)[i].number == records[i].number;
  }

  /** The records after setting the count to `n`: those numbered at most `n`, and record `n` if it was missing. */
  function AfterCount(records: seq<RecordValue>, n: int, t: DescriptorType): seq<RecordValue> {
    (if n > 0 && !HasNumber(records, n) then [RecordValue(n, FreshFields(t), false)] else []) + AtMost(records, n)
  }

  lemma {:induction false} LookupConcat(first: seq<RecordValue>, second: seq<RecordValue>, n: int)
    ensures Lookup(first + second, n) == if Lookup(first, n).Some? then Lookup(first, n) else Lookup(second, n)
  {
    var all := first + second;
    if second == [] {
      assert all == first;
    } else {
      assert all[..|all| - 1] == first + second[..|second| - 1];
      LookupConcat(first, second[..|second| - 1], n);
    }
  }

  lemma {:induction false} LookupIffHas(records: seq<RecordValue>, n: int)
    ensures Lookup(records, n).Some? <==> HasNumber(records, n)
    ensures Lookup(records, n).Some? ==> Lookup(records, n).value in records && Lookup(records, n).value.number == n
  {
    if records != [] {
      var shorter := records[..|records| - 1];
      LookupIffHas(shorter, n);
      assert records[|records| - 1].number == n ==> HasNumber(records, n);
      assert HasNumber(shorter, n) ==> HasNumber(records, n) by {
        if k :| 0 <= k < |shorter| && shorter[k].number == n {
          assert records[k].number == n;
        }
      }
    }
  }

  lemma {:induction false} LookupAtMost(records: seq<RecordValue>, n: int, m: int)
    ensures Lookup(AtMost(records, n), m) == if m <= n then Lookup(records, m) else None
  {
    if records != [] {
      var shorter, last := records[..|records| - 1], records[|records| - 1];
      LookupAtMost(shorter, n, m);
      var tail := if last.number <= n then [last] else [];
      LookupConcat(AtMost(shorter, n), tail, m);
      assert tail != [] ==> tail[..|tail| - 1] == [];
    }
  }

  lemma {:induction false} AtMostBound(records: seq<RecordValue>, n: int)
    ensures forall i :: 0 <= i < |AtMost(records, n)| ==> AtMost(records, n)[i].number <= n
  {
    if records != [] {
      AtMostBound(records[..|records| - 1], n);
    }
  }

  /** Setting the count to `n` keeps the records numbered at most `n` as they were, leaves none above `n`, and
      provides record `n`. */
  lemma CountKeepsAndProvides(records: seq<RecordValue>, n: int, t: DescriptorType, m: int)
    requires n >= 0
    ensures Lookup(AfterCount(records, n, t), m) ==
            if m > n then None
            else if Lookup(records, m).None? && m == n > 0 then Some(RecordValue(n, FreshFields(t), false))
            else Lookup(records, m)
  {
    var added := if n > 0 && !HasNumber(records, n) then [RecordValue(n, FreshFields(t), false)] else [];
    LookupConcat(added, AtMost(records, n), m);
    LookupAtMost(records, n, m);
    LookupIffHas(records, n);
    assert added != [] ==> added[..|added| - 1] == [];
  }

  /** A copied descriptor answers for every record number what its source answers. */
  lemma {:induction false} LookupCleared(records: seq<RecordValue>, n: int)
    ensures Lookup(records, n).None? ==> Lookup(Cleared(records), n).None?
    ensures Lookup(records, n).Some? ==>
            Lookup(Cleared(records), n) == Some(Lookup(records, n).value.(dataAtExec := false))
  {
    if records != [] {
      LookupCleared(records[..|records| - 1], n);
      assert Cleared(records)[..|records| - 1] == Cleared(records[..|records| - 1]);
    }
  }
}
