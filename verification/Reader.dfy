/** Reading the class bytes as `crates/class-link/src/classfile.rs` does it: a
    bounds-checked cursor, the loop of `walk_cp` and the loops of `survey`, each
    proved to compute the function of `ClassFile` it stands for. */
module Reader {
  import opened Bytes
  import opened ClassFile

  /** A bounds-checked reader; a read past the end is `Truncated` and moves nothing. */
  class Cursor {
    const data: seq<byte>
    var pos: nat

    constructor At(data: seq<byte>, pos: nat)
      ensures this.data == data && this.pos == pos
    {
      this.data := data;
      this.pos := pos;
    }

    method U8() returns (r: Result<byte>)
      modifies this`pos
      ensures r == if old(pos) < |data| then Ok(data[old(pos)]) else Err(Truncated)
      ensures pos == if r.Ok? then old(pos) + 1 else old(pos)
    {
      if pos >= |data| {
        return Err(Truncated);
      }
      r := Ok(data[pos]);
      pos := pos + 1;
    }

    method U16() returns (r: Result<u16>)
      modifies this`pos
      ensures r == ReadU16(data, old(pos))
      ensures pos == if r.Ok? then old(pos) + 2 else old(pos)
    {
      r := OkOr(Be16(data, pos), Truncated);
      if r.Ok? {
        pos := pos + 2;
      }
    }

    method U32() returns (r: Result<u32>)
      modifies this`pos
      ensures r == ReadU32(data, old(pos))
      ensures pos == if r.Ok? then old(pos) + 4 else old(pos)
    {
      r := OkOr(Be32(data, pos), Truncated);
      if r.Ok? {
        pos := pos + 4;
      }
    }

    method SeekTo(at: nat) returns (r: Result<nat>)
      modifies this`pos
      ensures r == Seek(data, at)
      ensures pos == if r.Ok? then at else old(pos)
    {
      if at > |data| {
        return Err(Truncated);
      }
      pos := at;
      r := Ok(at);
    }

    method Skip(n: nat) returns (r: Result<nat>)
      modifies this`pos
      ensures r == Seek(data, old(pos) + n)
      ensures pos == if r.Ok? then old(pos) + n else old(pos)
    {
      r := SeekTo(pos + n);
    }
  }

  // ---- the constant-pool walk --------------------------------------------

  /** The walk of the entries, given what is visited so far and how the rest goes. */
  function Resumed(visits: seq<Visit>, rest: CpWalk<nat>): CpWalk<nat> {
    CpWalk(visits + rest.visits, rest.outcome)
  }

  /** What one entry shows the walk, and the index and position after it. */
  datatype EntryRead = EntryRead(visited: seq<Visit>, next: Result<(nat, nat)>)

  function ReadEntry(cls: seq<byte>, form: Utf8Form, count: nat, idx: nat, pos: nat): EntryRead {
    if pos >= |cls| then EntryRead([], Err(Truncated))
    else
      var tag := cls[pos];
      match EntryEnd(cls, form, idx, tag, pos + 1)
      case Err(e) => EntryRead([Visit(idx, tag, pos + 1)], Err(e))
      case Ok(end) => EntryRead(EntryVisits(count, idx, tag, pos + 1), Ok((NextIndex(idx, tag), end)))
  }

  lemma WalkStep(visits: seq<Visit>, cls: seq<byte>, form: Utf8Form, count: nat, idx: nat, pos: nat)
    requires idx < count
    ensures var e := ReadEntry(cls, form, count, idx, pos);
      Resumed(visits, WalkFrom(cls, form, count, idx, pos))
      == match e.next
         case Err(x) => CpWalk(visits + e.visited, Err(x))
         case Ok((i, p)) => Resumed(visits + e.visited, WalkFrom(cls, form, count, i, p))
  {
    var e := ReadEntry(cls, form, count, idx, pos);
    if e.next.Ok? {
      ConcatAssoc(visits, e.visited, WalkFrom(cls, form, count, e.next.value.0, e.next.value.1).visits);
    }
  }

  /** The data of the entry the cursor is at, skipped. */
  method SkipEntry(c: Cursor, form: Utf8Form, idx: nat, tag: byte) returns (r: Result<nat>)
    modifies c`pos
    ensures r == EntryEnd(c.data, form, idx, tag, old(c.pos))
    ensures r.Ok? ==> c.pos == r.value
  {
    if tag == TAG_UTF8 {
      if form == Inline {
        var len :- c.U16();
        var _ :- c.Skip(len);
      }
    } else if IsWide(tag) {
      var _ :- c.Skip(8);
    } else {
      var n :- OkOr(FixedEntryLen(tag), UnknownTag(AsU16(idx), tag));
      var _ :- c.Skip(n);
    }
    return Ok(c.pos);
  }

  /** One entry: what is visited for it, and the index after it. */
  method WalkEntry(c: Cursor, form: Utf8Form, count: nat, idx: nat)
    returns (r: Result<nat>, visited: seq<Visit>)
    requires idx < count
    modifies c`pos
    ensures var e := ReadEntry(c.data, form, count, idx, old(c.pos));
      && visited == e.visited
      && r == match e.next
              case Err(x) => Err(x)
              case Ok((i, _)) => Ok(i)
    ensures r.Ok? ==> ReadEntry(c.data, form, count, idx, old(c.pos)).next == Ok((r.value, c.pos))
  {
    visited := [];
    var tag :- c.U8();
    visited := [Visit(idx, tag, c.pos)];
    var _ :- SkipEntry(c, form, idx, tag);
    var next := idx;
    if IsWide(tag) {
      next := next + 1;
      if next < count {
        visited := visited + [Visit(next, 0, 0)];
      }
    }
    next := next + 1;
    return Ok(next), visited;
  }

  /** The entries from index 1 on, the cursor at the first. */
  method WalkEntries(c: Cursor, form: Utf8Form, count: nat) returns (r: Result<nat>, visits: seq<Visit>)
    modifies c`pos
    ensures CpWalk(visits, r) == WalkFrom(c.data, form, count, 1, old(c.pos))
    ensures r.Ok? ==> c.pos == r.value
  {
    visits := [];
    var idx: nat := 1;
    while idx < count
      invariant WalkFrom(c.data, form, count, 1, old(c.pos)) == Resumed(visits, WalkFrom(c.data, form, count, idx, c.pos))
      decreases count - idx
    {
      WalkStep(visits, c.data, form, count, idx, c.pos);
      var next, visited := WalkEntry(c, form, count, idx);
      visits := visits + visited;
      idx :- next;
    }
    return Ok(c.pos), visits;
  }

  /** The file header, up to the first entry. */
  method ReadHead(c: Cursor) returns (r: Result<u16>)
    requires c.pos == 0
    modifies c`pos
    ensures r == ReadHeader(c.data)
    ensures r.Ok? ==> c.pos == 10
  {
    if |c.data| > MAX_CLASS_BYTES {
      return Err(ClassTooLarge);
    }
    var magic :- c.U32();
    if magic != 0xCAFE_BABE {
      return Err(BadMagic);
    }
    var _ :- c.Skip(4);
    r := c.U16();
  }

  /** `walk_cp`; `visits` is what its visitor is called with. */
  method WalkPool(cls: seq<byte>, form: Utf8Form) returns (r: Result<(nat, nat)>, visits: seq<Visit>)
    ensures CpWalk(visits, r) == WalkCp(cls, form)
  {
    visits := [];
    var c := new Cursor.At(cls, 0);
    var count :- ReadHead(c);
    var end, entries := WalkEntries(c, form, count);
    visits := [Visit(0, 0, 0)] + entries;
    var pos :- end;
    return Ok((count, pos)), visits;
  }

  // ---- the survey --------------------------------------------------------

  method SkipAttributes(c: Cursor) returns (r: Result<nat>)
    modifies c`pos
    ensures r == SkipAttrs(c.data, old(c.pos))
    ensures r.Ok? ==> c.pos == r.value
  {
    var n :- c.U16();
    var i := 0;
    while i < n
      invariant 0 <= i <= n
      invariant SkipAttrs(c.data, old(c.pos)) == SkipAttrsFrom(c.data, n - i, c.pos)
    {
      var _ :- c.Skip(2);
      var len :- c.U32();
      var _ :- c.Skip(len);
      i := i + 1;
    }
    return Ok(c.pos);
  }

  /** How many entries are `Methodref`s, and how many `String`s. */
  method CountDescribed(cp: CpView, cpCount: nat) returns (mrefs: nat, strs: nat)
    ensures mrefs == MrefsUpTo(cp, cpCount) && strs == StrsUpTo(cp, cpCount)
  {
    mrefs, strs := 0, 0;
    for i := 0 to cpCount
      invariant mrefs == MrefsUpTo(cp, i) && strs == StrsUpTo(cp, i)
    {
      var tag := Tag(cp, i);
      if tag.Some? && IsMethodref(tag.value) {
        mrefs := mrefs + 1;
      }
      if tag == Some(TAG_STRING) {
        strs := strs + 1;
      }
    }
  }

  method CountFields(c: Cursor, count: nat) returns (r: Result<FieldSplit>)
    modifies c`pos
    ensures r == SurveyFields(c.data, count, old(c.pos), 0, 0)
    ensures r.Ok? ==> c.pos == r.value.pos
  {
    var fields: nat, statics: nat := 0, 0;
    var i := 0;
    while i < count
      invariant 0 <= i <= count
      invariant SurveyFields(c.data, count, old(c.pos), 0, 0) == SurveyFields(c.data, count - i, c.pos, fields, statics)
    {
      var access :- c.U16();
      var _ :- c.Skip(4);
      var _ :- SkipAttributes(c);
      if IsStatic(access) {
        statics := statics + 1;
      } else {
        fields := fields + 1;
      }
      i := i + 1;
    }
    return Ok(FieldSplit(c.pos, fields, statics));
  }

  method SkipMethods(c: Cursor, count: nat) returns (r: Result<nat>)
    modifies c`pos
    ensures r == SurveyMethods(c.data, count, old(c.pos))
    ensures r.Ok? ==> c.pos == r.value
  {
    var i := 0;
    while i < count
      invariant 0 <= i <= count
      invariant SurveyMethods(c.data, count, old(c.pos)) == SurveyMethods(c.data, count - i, c.pos)
    {
      var _ :- c.Skip(6);
      var _ :- SkipAttributes(c);
      i := i + 1;
    }
    return Ok(c.pos);
  }

  /** `survey` */
  method SurveyClass(cls: seq<byte>, cp: CpView, cpCount: nat, posAfterCp: nat) returns (r: Result<Counts>)
    ensures r == Survey(cls, cp, cpCount, posAfterCp)
  {
    var mrefs, strs := CountDescribed(cp, cpCount);
    var c := new Cursor.At(cls, posAfterCp);
    var _ :- c.Skip(6);
    var ifaces :- c.U16();
    var _ :- c.Skip(2 * ifaces as int);
    var fieldCount :- c.U16();
    var split :- CountFields(c, fieldCount);
    var methods :- c.U16();
    var _ :- SkipMethods(c, methods);
    return Ok(Counts(cpCount, posAfterCp, ifaces, split.fields, split.statics, methods, mrefs, strs));
  }
}
