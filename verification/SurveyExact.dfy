/** The survey succeeds exactly where the items after the constant pool lie as
    the class file format says, and counts them. */
module SurveyExact {
  import opened Bytes
  import opened ClassFile
  import opened ClassSpec

  // ---- attributes --------------------------------------------------------

  lemma {:induction false} AttrsRead(t: Tail, n: nat, p: nat) returns (attrs: seq<Attr>, end: nat)
    requires SkipAttrsFrom(t.file, n, t.base + p).Ok?
    ensures |attrs| == n && AttrsLie(t, attrs, p, end) && SkipAttrsFrom(t.file, n, t.base + p) == Ok(t.base + end)
  {
    if n == 0 {
      attrs, end := [], p;
    } else {
      var len := ReadU32(t.file, t.base + p + 2).value;
      var first := Attr(p, ReadU16(t.file, t.base + p).value, len);
      attrs, end := AttrsRead(t, n - 1, p + 6 + len);
      var all := [first] + attrs;
      assert all[1..] == attrs;
      attrs := all;
    }
  }

  lemma {:induction false} AttrsSkipped(t: Tail, attrs: seq<Attr>, p: nat, end: nat)
    requires AttrsLie(t, attrs, p, end)
    ensures SkipAttrsFrom(t.file, |attrs|, t.base + p) == Ok(t.base + end)
    decreases |attrs|
  {
    if attrs != [] {
      AttrsSkipped(t, attrs[1..], p + 6 + attrs[0].len, end);
    }
  }

  lemma AttrTableRead(t: Tail, p: nat) returns (attrs: seq<Attr>, end: nat)
    requires SkipAttrs(t.file, t.base + p).Ok?
    ensures AttrTable(t, attrs, p, end) && SkipAttrs(t.file, t.base + p) == Ok(t.base + end)
  {
    attrs, end := AttrsRead(t, ReadU16(t.file, t.base + p).value, p + 2);
  }

  lemma AttrTableSkipped(t: Tail, attrs: seq<Attr>, p: nat, end: nat)
    requires AttrTable(t, attrs, p, end)
    ensures SkipAttrs(t.file, t.base + p) == Ok(t.base + end)
  {
    AttrsSkipped(t, attrs, p + 2, end);
  }

  // ---- members -----------------------------------------------------------

  lemma StaticAlike(m: Member, access: u16)
    requires m.access == access
    ensures StaticMember(m) <==> IsStatic(access)
  {
  }

  lemma MemberRead(t: Tail, p: nat) returns (m: Member)
    requires Be16(t.file, t.base + p).Some? && SkipAttrs(t.file, t.base + p + 6).Ok?
    ensures m.at == p && MemberLies(t, m) && U16(t, p) == Some(m.access) && SkipAttrs(t.file, t.base + p + 6) == Ok(t.base + m.end)
  {
    var attrs, end := AttrTableRead(t, p + 6);
    m := Member(p, U16(t, p).value, U16(t, p + 2).value, U16(t, p + 4).value, attrs, end);
  }

  lemma MembersCons(t: Tail, m: Member, ms: seq<Member>, p: nat, end: nat)
    requires m.at == p && MemberLies(t, m) && MembersLie(t, ms, m.end, end)
    ensures MembersLie(t, [m] + ms, p, end)
    ensures |Members([m] + ms, false)| == (if StaticMember(m) then 0 else 1) + |Members(ms, false)|
    ensures |Members([m] + ms, true)| == (if StaticMember(m) then 1 else 0) + |Members(ms, true)|
  {
    assert ([m] + ms)[1..] == ms;
  }

  lemma {:induction false} FieldsSurveyed(t: Tail, n: nat, p: nat, fields: nat, statics: nat)
    returns (ms: seq<Member>, end: nat)
    requires SurveyFields(t.file, n, t.base + p, fields, statics).Ok?
    ensures |ms| == n && MembersLie(t, ms, p, end)
    ensures SurveyFields(t.file, n, t.base + p, fields, statics)
            == Ok(FieldSplit(t.base + end, fields + |Members(ms, false)|, statics + |Members(ms, true)|))
  {
    hide AttrTable, AttrsLie, SkipAttrs, IsStatic, StaticMember, SurveyFields, MembersLie, Members;
    NoFields(t, p, fields, statics);
    if n == 0 {
      ms, end := [], p;
    } else {
      FieldBegins(t, n, p, fields, statics);
      var m := MemberRead(t, p);
      FieldStep(t, m, n - 1, p, fields, statics);
      if StaticMember(m) {
        ms, end := FieldsSurveyed(t, n - 1, m.end, fields, statics + 1);
      } else {
        ms, end := FieldsSurveyed(t, n - 1, m.end, fields + 1, statics);
      }
      MembersCons(t, m, ms, p, end);
      ms := [m] + ms;
    }
  }

  lemma NoFields(t: Tail, p: nat, fields: nat, statics: nat)
    ensures SurveyFields(t.file, 0, t.base + p, fields, statics) == Ok(FieldSplit(t.base + p, fields, statics))
    ensures MembersLie(t, [], p, p) && Members([], false) == Members([], true) == []
  {
  }

  lemma FieldBegins(t: Tail, n: nat, p: nat, fields: nat, statics: nat)
    requires n > 0 && SurveyFields(t.file, n, t.base + p, fields, statics).Ok?
    ensures Be16(t.file, t.base + p).Some? && SkipAttrs(t.file, t.base + p + 6).Ok?
  {
  }

  lemma {:induction false} FieldsPass(t: Tail, ms: seq<Member>, p: nat, end: nat, fields: nat, statics: nat)
    requires MembersLie(t, ms, p, end)
    ensures SurveyFields(t.file, |ms|, t.base + p, fields, statics)
            == Ok(FieldSplit(t.base + end, fields + |Members(ms, false)|, statics + |Members(ms, true)|))
    decreases |ms|
  {
    hide AttrTable, SkipAttrs, IsStatic, StaticMember;
    if ms != [] {
      var m := ms[0];
      AttrTableSkipped(t, m.attrs, p + 6, m.end);
      FieldStep(t, m, |ms| - 1, p, fields, statics);
      if StaticMember(m) {
        FieldsPass(t, ms[1..], m.end, end, fields, statics + 1);
      } else {
        FieldsPass(t, ms[1..], m.end, end, fields + 1, statics);
      }
    }
  }

  lemma FieldStep(t: Tail, m: Member, n: nat, p: nat, fields: nat, statics: nat)
    requires U16(t, p) == Some(m.access) && SkipAttrs(t.file, t.base + p + 6) == Ok(t.base + m.end)
    ensures SurveyFields(t.file, n + 1, t.base + p, fields, statics)
            == if StaticMember(m) then SurveyFields(t.file, n, t.base + m.end, fields, statics + 1)
               else SurveyFields(t.file, n, t.base + m.end, fields + 1, statics)
  {
    hide SkipAttrs, IsStatic, StaticMember;
    StaticAlike(m, U16(t, p).value);
    assert Seek(t.file, t.base + p + 6).Ok? by {
      SkipReaches(t.file, t.base + p + 6);
    }
  }

  lemma SkipReaches(cls: seq<byte>, pos: nat)
    requires SkipAttrs(cls, pos).Ok?
    ensures pos <= |cls|
  {
  }

  lemma {:induction false} MethodsSurveyed(t: Tail, n: nat, p: nat) returns (ms: seq<Member>, end: nat)
    requires SurveyMethods(t.file, n, t.base + p).Ok?
    ensures |ms| == n && MembersLie(t, ms, p, end) && SurveyMethods(t.file, n, t.base + p) == Ok(t.base + end)
  {
    if n == 0 {
      ms, end := [], p;
    } else {
      var m := MemberRead(t, p);
      ms, end := MethodsSurveyed(t, n - 1, m.end);
      MembersCons(t, m, ms, p, end);
      ms := [m] + ms;
    }
  }

  lemma {:induction false} MethodsPass(t: Tail, ms: seq<Member>, p: nat, end: nat)
    requires MembersLie(t, ms, p, end)
    ensures SurveyMethods(t.file, |ms|, t.base + p) == Ok(t.base + end)
    decreases |ms|
  {
    if ms != [] {
      AttrTableSkipped(t, ms[0].attrs, p + 6, ms[0].end);
      MethodsPass(t, ms[1..], ms[0].end, end);
    }
  }

  // ---- the survey --------------------------------------------------------

  /** What a survey of these items counts. */
  function CountsOf(cp: CpView, cpCount: nat, t: Tail, b: Body): Counts {
    Counts(cpCount, t.base, |b.ifaces|, |Members(b.fields, false)|, |Members(b.fields, true)|, |b.methods|,
           MrefsUpTo(cp, cpCount), StrsUpTo(cp, cpCount))
  }

  function IndexesAt(t: Tail, p: nat, n: nat): seq<nat>
    requires Reaches(t, p + 2 * n)
  {
    seq(n, j requires 0 <= j < n => U16(t, p + 2 * j).value)
  }

  lemma SurveyReads(t: Tail, cp: CpView, cpCount: nat) returns (b: Body)
    requires Survey(t.file, cp, cpCount, t.base).Ok?
    ensures MembersPart(t, b) && Survey(t.file, cp, cpCount, t.base) == Ok(CountsOf(cp, cpCount, t, b))
  {
    hide MembersLie, SurveyFields, SurveyMethods, Members, AttrTable, MrefsUpTo, StrsUpTo;
    var ifaces: nat := ReadU16(t.file, t.base + 6).value;
    var at: nat := 8 + 2 * ifaces;
    var fieldCount := ReadU16(t.file, t.base + at).value;
    var fields, fieldsEnd := FieldsSurveyed(t, fieldCount, at + 2, 0, 0);
    var methodCount := ReadU16(t.file, t.base + fieldsEnd).value;
    var methods, methodsEnd := MethodsSurveyed(t, methodCount, fieldsEnd + 2);
    b := Body(U16(t, 0).value, U16(t, 2).value, U16(t, 4).value, IndexesAt(t, 8, ifaces),
              fields, fieldsEnd, methods, methodsEnd, [], 0);
  }

  lemma SurveyPasses(t: Tail, cp: CpView, cpCount: nat, b: Body)
    requires MembersPart(t, b)
    ensures Survey(t.file, cp, cpCount, t.base) == Ok(CountsOf(cp, cpCount, t, b))
  {
    hide MembersLie, SurveyFields, SurveyMethods, Members, AttrTable, MrefsUpTo, StrsUpTo;
    FieldsPass(t, b.fields, 8 + 2 * |b.ifaces| + 2, b.fieldsEnd, 0, 0);
    MethodsPass(t, b.methods, b.fieldsEnd + 2, b.methodsEnd);
  }
}
