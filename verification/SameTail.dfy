/** What follows the constant pool links alike wherever the pool ends: moving
    the strings out of a class changes nothing of it. */
module SameTail {
  import opened Bytes
  import opened ClassSpec

  ghost predicate Alike(t: Tail, u: Tail) {
    t.base <= |t.file| && u.base <= |u.file| && t.file[t.base..] == u.file[u.base..]
  }

  lemma ByteAlike(t: Tail, u: Tail, p: nat)
    requires Alike(t, u)
    ensures Reaches(t, p) <==> Reaches(u, p)
    ensures t.base + p < |t.file| ==> u.base + p < |u.file| && t.file[t.base + p] == u.file[u.base + p]
  {
    assert |t.file| - t.base == |u.file| - u.base;
    if t.base + p < |t.file| {
      assert t.file[t.base..][p] == t.file[t.base + p] && u.file[u.base..][p] == u.file[u.base + p];
    }
  }

  lemma ReadsAlike(t: Tail, u: Tail, p: nat)
    requires Alike(t, u)
    ensures U16(t, p) == U16(u, p) && U32(t, p) == U32(u, p)
    ensures Reaches(t, p) <==> Reaches(u, p)
  {
    hide Alike;
    ByteAlike(t, u, p);
    ByteAlike(t, u, p + 1);
    ByteAlike(t, u, p + 2);
    ByteAlike(t, u, p + 3);
    ByteAlike(t, u, p + 4);
  }

  lemma {:induction false} AttrsAlike(t: Tail, u: Tail, attrs: seq<Attr>, p: nat, end: nat)
    requires Alike(t, u) && AttrsLie(t, attrs, p, end)
    ensures AttrsLie(u, attrs, p, end)
    decreases |attrs|
  {
    hide Alike, U16, U32, Reaches;
    if attrs != [] {
      ReadsAlike(t, u, p);
      ReadsAlike(t, u, p + 2);
      ReadsAlike(t, u, p + 6 + attrs[0].len);
      AttrsAlike(t, u, attrs[1..], p + 6 + attrs[0].len, end);
    }
  }

  lemma AttrTableAlike(t: Tail, u: Tail, attrs: seq<Attr>, p: nat, end: nat)
    requires Alike(t, u) && AttrTable(t, attrs, p, end)
    ensures AttrTable(u, attrs, p, end)
  {
    hide Alike, U16, U32, AttrsLie;
    ReadsAlike(t, u, p);
    AttrsAlike(t, u, attrs, p + 2, end);
  }

  lemma MemberAlike(t: Tail, u: Tail, m: Member)
    requires Alike(t, u) && MemberLies(t, m)
    ensures MemberLies(u, m)
  {
    hide Alike, U16, U32, AttrTable;
    ReadsAlike(t, u, m.at);
    ReadsAlike(t, u, m.at + 2);
    ReadsAlike(t, u, m.at + 4);
    AttrTableAlike(t, u, m.attrs, m.at + 6, m.end);
  }

  lemma {:induction false} MembersAlike(t: Tail, u: Tail, ms: seq<Member>, p: nat, end: nat)
    requires Alike(t, u) && MembersLie(t, ms, p, end)
    ensures MembersLie(u, ms, p, end)
    decreases |ms|
  {
    hide Alike, MemberLies;
    if ms != [] {
      MemberAlike(t, u, ms[0]);
      MembersAlike(t, u, ms[1..], ms[0].end, end);
    }
  }

  lemma MemberTableAlike(t: Tail, u: Tail, ms: seq<Member>, p: nat, end: nat)
    requires Alike(t, u) && MemberTable(t, ms, p, end)
    ensures MemberTable(u, ms, p, end)
  {
    hide Alike, MembersLie, U16;
    ReadsAlike(t, u, p);
    MembersAlike(t, u, ms, p + 2, end);
  }

  lemma BodyAlike(t: Tail, u: Tail, b: Body)
    requires Alike(t, u) && BodyLies(t, b)
    ensures BodyLies(u, b)
  {
    hide Alike, MemberTable, AttrTable, U16;
    ReadsAlike(t, u, 0);
    ReadsAlike(t, u, 2);
    ReadsAlike(t, u, 4);
    ReadsAlike(t, u, 6);
    forall j | 0 <= j < |b.ifaces|
      ensures U16(u, 8 + 2 * j) == Some(b.ifaces[j])
    {
      ReadsAlike(t, u, 8 + 2 * j);
    }
    MemberTableAlike(t, u, b.fields, 8 + 2 * |b.ifaces|, b.fieldsEnd);
    MemberTableAlike(t, u, b.methods, b.fieldsEnd, b.methodsEnd);
    AttrTableAlike(t, u, b.attrs, b.methodsEnd, b.end);
  }

  lemma CodeAlike(t: Tail, u: Tail, a: Attr, c: Code)
    requires Alike(t, u) && CodeLies(t, a, c) && Reaches(t, a.at + 14 + c.len)
    ensures CodeLies(u, a, c) && Reaches(u, a.at + 14 + c.len) && CodeBytes(u, a, c) == CodeBytes(t, a, c)
  {
    hide AttrTable, U16, U32;
    ReadsAlike(t, u, a.at + 10);
    ReadsAlike(t, u, a.at + 14 + c.len);
    AttrTableAlike(t, u, c.subs, a.at + 14 + c.len + 2 + 8 * c.handlers, c.end);
    SliceOfSlice(t.file, t.base, |t.file|, a.at + 14, a.at + 14 + c.len);
    SliceOfSlice(u.file, u.base, |u.file|, a.at + 14, a.at + 14 + c.len);
    assert t.file[t.base..|t.file|] == t.file[t.base..] && u.file[u.base..|u.file|] == u.file[u.base..];
  }

  lemma MethodAlike(env: Env, cs: seq<Constant>, t: Tail, u: Tail, m: Member, codes: seq<Option<Code>>)
    requires Alike(t, u) && MethodLinks(env, cs, t, m, codes)
    ensures MethodLinks(env, cs, u, m, codes)
  {
    hide Alike, CodeLies, CodeIsLegal, CodeBytes, Named, IsName, Reaches;
    forall j | 0 <= j < |m.attrs| && codes[j].Some?
      ensures CodeLies(u, m.attrs[j], codes[j].value) && Reaches(u, m.attrs[j].at + 14 + codes[j].value.len)
      ensures CodeIsLegal(CodeBytes(u, m.attrs[j], codes[j].value))
    {
      CodeAlike(t, u, m.attrs[j], codes[j].value);
    }
  }

  lemma {:induction false} BootstrapsAlike(t: Tail, u: Tail, args: seq<nat>, p: nat, end: nat)
    requires Alike(t, u) && BootstrapsLie(t, args, p, end)
    ensures BootstrapsLie(u, args, p, end)
    decreases |args|
  {
    hide Alike, U16, Reaches;
    if args != [] {
      ReadsAlike(t, u, p + 2);
      ReadsAlike(t, u, p + 4 + 2 * args[0]);
      BootstrapsAlike(t, u, args[1..], p + 4 + 2 * args[0], end);
    }
  }

  lemma AttrAlike(cs: seq<Constant>, t: Tail, u: Tail, a: Attr)
    requires Alike(t, u) && AttrLinks(cs, t, a)
    ensures AttrLinks(cs, u, a)
  {
    hide Alike, U16, BootstrapsLie, Named;
    if Named(cs, a, BOOTSTRAP_ATTR) {
      var args, end :| BootstrapTable(t, a, args, end);
      ReadsAlike(t, u, a.at + 6);
      BootstrapsAlike(t, u, args, a.at + 8, end);
      assert BootstrapTable(u, a, args, end);
    }
  }

  lemma LinksAlike(env: Env, cs: seq<Constant>, t: Tail, u: Tail, b: Body, codes: seq<seq<Option<Code>>>)
    requires Alike(t, u) && Linkable(env, cs, t, b, codes)
    ensures Linkable(env, cs, u, b, codes)
  {
    hide Alike, BodyLies, TableEnd, ConstantLinks, NamesClass, FieldsLink, MethodLinks, AttrLinks;
    BodyAlike(t, u, b);
    forall j | 0 <= j < |b.methods|
      ensures MethodLinks(env, cs, u, b.methods[j], codes[j])
    {
      MethodAlike(env, cs, t, u, b.methods[j], codes[j]);
    }
    forall j | 0 <= j < |b.attrs|
      ensures AttrLinks(cs, u, b.attrs[j])
    {
      AttrAlike(cs, t, u, b.attrs[j]);
    }
  }

  /** Linkable at one tail, linkable at the other. */
  lemma LinkAlike(env: Env, cs: seq<Constant>, t: Tail, u: Tail, b: Body, codes: seq<seq<Option<Code>>>)
    requires Alike(t, u)
    ensures Linkable(env, cs, t, b, codes) <==> Linkable(env, cs, u, b, codes)
  {
    hide Linkable;
    if Linkable(env, cs, t, b, codes) {
      LinksAlike(env, cs, t, u, b, codes);
    }
    if Linkable(env, cs, u, b, codes) {
      LinksAlike(env, cs, u, t, b, codes);
    }
  }
}
