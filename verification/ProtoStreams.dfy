/** The reading half of the emitted classes as it runs: arrays that grow and a
    cursor with nested limits. Each method is proved against the functions of
    `Proto`. */
module ProtoStreams {
  import opened Bytes
  import opened Proto

  // ---- repeated fields ---------------------------------------------------

  /** The storage of a repeated field: an array that doubles, and a count. */
  class RepeatedField<T> {
    var items: array?<T>
    var count: nat

    ghost predicate Valid()
      reads this
    {
      if items == null then count == 0 else count <= items.Length && items.Length >= 4
    }

    /** The elements added, in order. */
    ghost function Contents(): seq<T>
      reads this, items
      requires Valid()
    {
      if items == null then [] else items[..count]
    }

    constructor ()
      ensures Valid() && Contents() == [] && items == null
    {
      items, count := null, 0;
    }

    /** `addX` */
    method Add(value: T)
      requires Valid()
      modifies this, items
      ensures Valid() && Contents() == old(Contents()) + [value]
      ensures items != null && (items == old(items) || fresh(items))
      ensures items != old(items) ==> items.Length == if old(count) == 0 then 4 else 2 * old(count)
    {
      if items == null || count == items.Length {
        var capacity := if count == 0 then 4 else count * 2;
        var grown := new T[capacity](_ => value);
        if items != null {
          forall k | 0 <= k < count {
            grown[k] := items[k];
          }
        }
        items := grown;
      }
      items[count] := value;
      count := count + 1;
    }

    /** The elements as a value. */
    method Elements() returns (vs: seq<T>)
      requires Valid()
      ensures vs == Contents()
    {
      if items == null {
        return [];
      }
      return items[..count];
    }

    /** `getX`: none for `IndexOutOfBoundsException`. */
    method Get(index: int) returns (r: Option<T>)
      requires Valid()
      ensures r == if 0 <= index < |Contents()| then Some(Contents()[index]) else None
    {
      if index < 0 || index >= count {
        return None;
      }
      return Some(items[index]);
    }

    /** `clearX` */
    method Clear()
      modifies this
      ensures Valid() && Contents() == []
    {
      items, count := null, 0;
    }
  }

  // ---- reading -----------------------------------------------------------

  /** `CodedInputStream`: a cursor and the limit it may not pass. */
  class CodedInput {
    const buf: seq<byte>
    var pos: nat
    var limit: nat

    predicate Valid()
      reads this
    {
      pos <= limit <= |buf|
    }

    constructor (buf: seq<byte>)
      ensures Valid() && this.buf == buf && pos == 0 && limit == |buf|
    {
      this.buf := buf;
      pos, limit := 0, |buf|;
    }

    predicate AtEnd()
      reads this
    {
      pos == limit
    }

    /** `readTag`: zero at the limit, none for the exceptions. */
    method NextTag() returns (r: Option<nat>)
      requires Valid()
      modifies this`pos
      ensures Valid() && (r.Some? && r.value != 0 ==> pos > old(pos))
      ensures old(pos) == limit ==> r == Some(0) && pos == old(pos)
      ensures old(pos) < limit ==>
        var read := ReadTag(buf, old(pos), limit);
        && (read.None? ==> r == None)
        && (read.Some? ==> r == Some(read.value.0) && r.value != 0 && pos == read.value.1)
    {
      if AtEnd() {
        return Some(0);
      }
      var read := ReadTag(buf, pos, limit);
      if read.None? {
        return None;
      }
      pos := read.value.1;
      return Some(read.value.0);
    }

    method Scalar(k: Kind) returns (r: Option<Value>)
      requires Valid() && !k.TypeMessage?
      modifies this`pos
      ensures Valid()
      ensures var read := ReadScalar(k, buf, old(pos), limit);
        && (read.None? ==> r == None)
        && (read.Some? ==> r == Some(read.value.0) && pos == read.value.1 > old(pos))
    {
      ReadScalarEnds(k, buf, pos, limit);
      var read := ReadScalar(k, buf, pos, limit);
      if read.None? {
        return None;
      }
      pos := read.value.1;
      return Some(read.value.0);
    }

    /** `readRawVarint32` and `pushLimit`: the limit it replaces. */
    method PushLength() returns (r: Option<nat>)
      requires Valid()
      modifies this
      ensures Valid() && limit <= old(limit)
      ensures var read := ReadLength(buf, old(pos), old(limit));
        && (read.None? ==> r == None)
        && (read.Some? ==> r == Some(old(limit)) && (pos, limit) == read.value)
    {
      var read := ReadLength(buf, pos, limit);
      if read.None? {
        return None;
      }
      r := Some(limit);
      pos, limit := read.value.0, read.value.1;
    }

    /** `popLimit` */
    method PopLimit(old_: nat)
      requires pos <= old_ <= |buf|
      modifies this`limit
      ensures Valid() && limit == old_
    {
      limit := old_;
    }

    method Skip(tag: nat) returns (ok: bool)
      requires Valid()
      modifies this`pos
      ensures Valid() && pos >= old(pos)
      ensures ok == SkipField(buf, old(pos), limit, tag).Some?
      ensures ok ==> SkipField(buf, old(pos), limit, tag) == Some(pos)
    {
      var end := SkipField(buf, pos, limit, tag);
      if end.None? {
        return false;
      }
      pos := end.value;
      return true;
    }

    /** The loop over a packed payload: every element up to the limit is added
        to the field, whatever it holds. */
    method PackedValues(k: Kind, list: RepeatedField<Value>) returns (ok: bool)
      requires Valid() && !k.TypeMessage? && list.Valid()
      modifies this`pos, list, list.items
      ensures Valid() && list.Valid() && ok == ReadPacked(k, buf, old(pos), limit).Some?
      ensures ok ==> pos == limit && list.Contents() == old(list.Contents()) + ReadPacked(k, buf, old(pos), limit).value
    {
      ghost var held, added := list.Contents(), [];
      AppendNothing(ReadPacked(k, buf, pos, limit));
      while limit - pos > 0
        invariant Valid() && list.Valid() && list.Contents() == held + added
        invariant list.items == old(list.items) || fresh(list.items)
        invariant ReadPacked(k, buf, old(pos), limit) == AppendTo(added, ReadPacked(k, buf, pos, limit))
        decreases limit - pos
      {
        AppendStep(added, k, buf, pos, limit);
        var v := Scalar(k);
        if v.None? {
          return false;
        }
        list.Add(v.value);
        ConcatAssoc(held, added, [v.value]);
        added := added + [v.value];
      }
      assert added + [] == added;
      return true;
    }

    /** A packed record: its payload between limits, added to a field. */
    method PackedRecord(k: Kind) returns (r: Option<seq<Value>>)
      requires Valid() && !k.TypeMessage?
      modifies this
      ensures Valid() && (r.Some? ==> limit == old(limit))
      ensures match ReadLength(buf, old(pos), old(limit))
        case None => r == None
        case Some((start, end)) => r == ReadPacked(k, buf, start, end) && (r.Some? ==> pos == end)
    {
      var outer := PushLength();
      if outer.None? {
        return None;
      }
      ghost var payload := ReadPacked(k, buf, pos, limit);
      var list := new RepeatedField<Value>();
      var ok := PackedValues(k, list);
      if !ok {
        return None;
      }
      PopLimit(outer.value);
      var vs := list.Elements();
      assert [] + payload.value == payload.value;
      return Some(vs);
    }
  }

  function AppendTo(vs: seq<Value>, rest: Option<seq<Value>>): Option<seq<Value>> {
    match rest
    case None => None
    case Some(r) => Some(vs + r)
  }

  lemma AppendNothing(rest: Option<seq<Value>>)
    ensures AppendTo([], rest) == rest
  {
    if rest.Some? {
      assert [] + rest.value == rest.value;
    }
  }

  lemma AppendStep(vs: seq<Value>, k: Kind, d: seq<byte>, pos: nat, limit: nat)
    requires pos < limit <= |d| && !k.TypeMessage?
    ensures var read := ReadScalar(k, d, pos, limit);
      && (read.None? ==> AppendTo(vs, ReadPacked(k, d, pos, limit)) == None)
      && (read.Some? ==>
            && read.value.1 <= limit
            && AppendTo(vs, ReadPacked(k, d, pos, limit)) == AppendTo(vs + [read.value.0], ReadPacked(k, d, read.value.1, limit)))
  {
    ReadScalarEnds(k, d, pos, limit);
    var read := ReadScalar(k, d, pos, limit);
    if read.Some? && ReadPacked(k, d, read.value.1, limit).Some? {
      ConcatAssoc(vs, [read.value.0], ReadPacked(k, d, read.value.1, limit).value);
    }
  }

  /** One turn of the emitted loop after its tag: the message after the field. */
  method MergeField(s: Schema, t: nat, m: Message, tag: nat, input: CodedInput) returns (r: Option<Message>)
    requires SchemaOk(s) && t < |s| && |m.slots| == |s[t]| && input.Valid()
    modifies input
    ensures input.Valid() && (r.Some? ==> input.limit == old(input.limit) && input.pos >= old(input.pos) && |r.value.slots| == |s[t]|)
    ensures forall pos | 0 <= pos < old(input.pos) && ReadTag(input.buf, pos, old(input.limit)) == Some((tag, old(input.pos))) ::
      MergeFrom(s, t, m, input.buf, pos, old(input.limit))
      == if r.None? then None else MergeFrom(s, t, r.value, input.buf, input.pos, old(input.limit))
    decreases input.limit - input.pos, 0
  {
    var at := CaseOf(s[t], tag, 0);
    match at {
      case Unknown =>
        var ok := input.Skip(tag);
        return if ok then Some(m) else None;
      case Packed(i) =>
        var vs := input.PackedRecord(s[t][i].kind);
        if vs.None? {
          return None;
        }
        AddAllKeepsSize(m, i, vs.value);
        return Some(AddAll(m, i, vs.value));
      case Plain(i) =>
        if s[t][i].kind.TypeMessage? {
          var limit := input.PushLength();
          if limit.None? {
            return None;
          }
          var of := s[t][i].kind.of;
          var sub := Merge(s, of, Fresh(s, of), input);
          if sub.None? {
            return None;
          }
          input.PopLimit(limit.value);
          return Some(Store(m, i, VMessage(sub.value)));
        } else {
          var v := input.Scalar(s[t][i].kind);
          if v.None? {
            return None;
          }
          return Some(Store(m, i, v.value));
        }
    }
  }

  /** `mergeFrom`: fields until the limit, on top of what is set. */
  method Merge(s: Schema, t: nat, start: Message, input: CodedInput) returns (r: Option<Message>)
    requires SchemaOk(s) && t < |s| && |start.slots| == |s[t]| && input.Valid()
    modifies input
    ensures input.Valid()
    ensures r == MergeFrom(s, t, start, input.buf, old(input.pos), old(input.limit))
    ensures r.Some? ==> input.limit == old(input.limit) == input.pos
    decreases input.limit - input.pos, 1
  {
    var m := start;
    while true
      invariant input.Valid() && input.limit == old(input.limit) && |m.slots| == |s[t]| && input.pos >= old(input.pos)
      invariant MergeFrom(s, t, start, input.buf, old(input.pos), old(input.limit))
                == MergeFrom(s, t, m, input.buf, input.pos, input.limit)
      decreases input.limit - input.pos
    {
      ghost var pos := input.pos;
      var tag := input.NextTag();
      if tag.None? {
        return None;
      }
      if tag.value == 0 {
        return Some(m);
      }
      var next := MergeField(s, t, m, tag.value, input);
      if next.None? {
        return None;
      }
      m := next.value;
    }
  }
}
