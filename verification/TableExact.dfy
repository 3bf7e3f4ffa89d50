/** The derivation as a whole: it succeeds exactly on linkable classes, and a
    table that agrees with it says what the class file says. */
module TableExact {
  import opened Bytes
  import opened ClassFile
  import opened ClassSpec
  import opened ConstantsExact
  import opened MembersExact
  import opened MethodsExact
  import opened Sinks
  import opened SurveyExact

  // ---- when the members derive -------------------------------------------

  ghost predicate IfacesLink(env: Env, cs: seq<Constant>, ifaces: seq<nat>) {
    forall j | 0 <= j < |ifaces| :: NamesClass(env, cs, ifaces[j])
  }

  ghost predicate AttrsLink(cs: seq<Constant>, t: Tail, attrs: seq<Attr>) {
    forall j | 0 <= j < |attrs| :: AttrLinks(cs, t, attrs[j])
  }

  const NOTHING := ClassAttrs(0, 0)

  /** The puts after the methods'. */
  function LastPuts(cs: seq<Constant>, t: Tail, b: Body, n: Counts, l: Layout, head: Head, own: nat): seq<Put> {
    HeaderPuts(t.file, n, l, head, own, Found(cs, t, b.attrs, NOTHING)) + PadPuts(n, l)
  }

  lemma TailDerived(cp: CpView, cs: seq<Constant>, t: Tail, b: Body, n: Counts, l: Layout, head: Head, own: nat)
    requires Shows(t.file, cp, cs) && AttrTable(t, b.attrs, b.methodsEnd, b.end)
    ensures var d := DeriveTail(t.file, cp, n, l, head, own, t.base + b.methodsEnd);
      && (d.outcome.Ok? <==> AttrsLink(cs, t, b.attrs))
      && (d.outcome.Ok? ==> d.puts == LastPuts(cs, t, b, n, l, head, own))
  {
    hide Shows, ClassAttrsFrom, AttrLinks, Found, AttrsLie, HeaderPuts, PadPuts;
    ClassAttrsDerived(cp, cs, t, b.attrs, b.methodsEnd + 2, b.end, NOTHING);
  }

  lemma TailRead(cp: CpView, cs: seq<Constant>, t: Tail, b: Body, n: Counts, l: Layout, head: Head, own: nat)
    returns (attrs: seq<Attr>, end: nat)
    requires DeriveTail(t.file, cp, n, l, head, own, t.base + b.methodsEnd).outcome.Ok?
    ensures AttrTable(t, attrs, b.methodsEnd, end)
  {
    hide ClassAttrsFrom, AttrsLie, HeaderPuts, PadPuts;
    attrs, end := ClassAttrsRead(cp, t, ReadU16(t.file, t.base + b.methodsEnd).value, b.methodsEnd + 2, NOTHING);
  }

  /** The puts of a class's methods. */
  ghost function MethodsPuts(env: Env, cp: CpView, t: Tail, b: Body, l: Layout): seq<Put> {
    DeriveMethods(env, t.file, cp, l, |b.methods|, 0, t.base + b.fieldsEnd + 2).puts
  }

  lemma FromMethodsDerived(env: Env, cp: CpView, cs: seq<Constant>, t: Tail, b: Body, codes: seq<seq<Option<Code>>>,
                           n: Counts, l: Layout, head: Head, own: nat)
    requires Shows(t.file, cp, cs) && MemberTable(t, b.methods, b.fieldsEnd, b.methodsEnd) && n.methods == |b.methods|
    requires AttrTable(t, b.attrs, b.methodsEnd, b.end)
    requires MethodsLink(env, cs, t, b.methods, codes) && AttrsLink(cs, t, b.attrs)
    ensures var d := DeriveFromMethods(env, t.file, cp, n, l, head, own, t.base + b.fieldsEnd);
      d.outcome.Ok? && d.puts == MethodsPuts(env, cp, t, b, l) + LastPuts(cs, t, b, n, l, head, own)
  {
    hide Shows, MembersLie, DeriveMethods, DeriveTail, LastPuts, MethodsLink, AttrsLink, AttrTable;
    MethodsDerived(env, cp, cs, t, l, b.methods, codes, |b.methods|, 0, b.fieldsEnd + 2, b.methodsEnd);
    TailDerived(cp, cs, t, b, n, l, head, own);
  }

  lemma FromMethodsRead(env: Env, cp: CpView, cs: seq<Constant>, t: Tail, b: Body, n: Counts, l: Layout, head: Head, own: nat)
    returns (codes: seq<seq<Option<Code>>>, attrs: seq<Attr>, end: nat)
    requires Shows(t.file, cp, cs) && MemberTable(t, b.methods, b.fieldsEnd, b.methodsEnd) && n.methods == |b.methods|
    requires DeriveFromMethods(env, t.file, cp, n, l, head, own, t.base + b.fieldsEnd).outcome.Ok?
    ensures MethodsLink(env, cs, t, b.methods, codes)
    ensures AttrTable(t, attrs, b.methodsEnd, end) && AttrsLink(cs, t, attrs)
  {
    hide Shows, MembersLie, DeriveMethods, DeriveTail, LastPuts, MethodsLink, AttrsLink, AttrTable;
    var p := b.fieldsEnd + 2;
    codes := MethodsTaken(env, cp, cs, t, l, b.methods, |b.methods|, 0, p, b.methodsEnd);
    MethodsDerived(env, cp, cs, t, l, b.methods, codes, |b.methods|, 0, p, b.methodsEnd);
    attrs, end := TailRead(cp, cs, t, b, n, l, head, own);
    TailDerived(cp, cs, t, b.(attrs := attrs, end := end), n, l, head, own);
  }

  /** The puts of a class's fields. */
  function FieldsPuts(env: Env, cp: CpView, t: Tail, b: Body, l: Layout): seq<Put> {
    var p := t.base + 8 + 2 * |b.ifaces| + 2;
    DeriveFields(env, t.file, cp, l, |b.fields|, 0, FieldsEnd(p, 0, 0, 0)).puts
  }

  function OwnSlots(cs: seq<Constant>, b: Body): nat { SlotsFrom(cs, Members(b.fields, false)) }

  /** What the field loop comes to. */
  lemma FieldsCome(env: Env, cp: CpView, cs: seq<Constant>, t: Tail, b: Body, l: Layout)
    requires Shows(t.file, cp, cs) && MemberTable(t, b.fields, 8 + 2 * |b.ifaces|, b.fieldsEnd)
    ensures var d := DeriveFields(env, t.file, cp, l, |b.fields|, 0, FieldsEnd(t.base + 8 + 2 * |b.ifaces| + 2, 0, 0, 0));
      && (d.outcome.Ok? <==> FieldsLink(env, cs, b.fields))
      && (d.outcome.Ok? ==>
            d.outcome == Ok(FieldsEnd(t.base + b.fieldsEnd, |Members(b.fields, false)|, |Members(b.fields, true)|, OwnSlots(cs, b))))
  {
    hide Shows, MembersLie, DeriveFields, IsName, Members, SlotsFrom, SlotsTo;
    var p := 8 + 2 * |b.ifaces| + 2;
    FieldsDerived(env, cp, cs, t, l, b.fields, |b.fields|, 0, FieldsEnd(t.base + p, 0, 0, 0), p, b.fieldsEnd);
    SlotsBothWays(cs, Members(b.fields, false));
  }

  /** The counts the survey made of this body. */
  predicate Counted(n: Counts, t: Tail, b: Body) {
    && n.posAfterCp == t.base && n.ifaces == |b.ifaces| && n.methods == |b.methods|
    && n.fields == |Members(b.fields, false)| && n.statics == |Members(b.fields, true)|
  }

  lemma FromFieldsDerived(env: Env, cp: CpView, cs: seq<Constant>, t: Tail, b: Body, n: Counts, l: Layout, head: Head)
    requires Shows(t.file, cp, cs) && MemberTable(t, b.fields, 8 + 2 * |b.ifaces|, b.fieldsEnd) && Counted(n, t, b)
    ensures var d := DeriveFromFields(env, t.file, cp, n, l, head, t.base + 8 + 2 * |b.ifaces|);
      var rest := DeriveFromMethods(env, t.file, cp, n, l, head, OwnSlots(cs, b), t.base + b.fieldsEnd);
      && (d.outcome.Ok? <==> FieldsLink(env, cs, b.fields) && rest.outcome.Ok?)
      && (d.outcome.Ok? ==> d.puts == FieldsPuts(env, cp, t, b, l) + rest.puts)
  {
    hide Shows, MembersLie, DeriveFields, DeriveFromMethods, FieldsLink, Members, SlotsFrom;
    FieldsCome(env, cp, cs, t, b, l);
  }

  /** The puts of a class's interfaces. */
  function IfacesPuts(env: Env, cp: CpView, t: Tail, b: Body, l: Layout): seq<Put> {
    DeriveIfaces(env, t.file, cp, l, |b.ifaces|, 0, t.base + 8).puts
  }

  lemma FromHeadDerived(env: Env, cp: CpView, cs: seq<Constant>, t: Tail, b: Body, n: Counts, l: Layout, head: Head)
    requires Shows(t.file, cp, cs) && MembersPart(t, b) && Counted(n, t, b) && head.ifaces == |b.ifaces| && head.pos == t.base + 8
    ensures var d := DeriveFromHead(env, t.file, cp, n, l, head);
      var rest := DeriveFromMethods(env, t.file, cp, n, l, head, OwnSlots(cs, b), t.base + b.fieldsEnd);
      && (d.outcome.Ok? <==> IfacesLink(env, cs, b.ifaces) && FieldsLink(env, cs, b.fields) && rest.outcome.Ok?)
      && (d.outcome.Ok? ==> d.puts == IfacesPuts(env, cp, t, b, l) + (FieldsPuts(env, cp, t, b, l) + rest.puts))
  {
    hide Shows, MemberTable, DeriveFromFields, DeriveFromMethods, FieldsLink, DeriveIfaces, NamesClass, Members, OwnSlots, FieldsPuts;
    IfacesDerived(env, cp, cs, t, b, l, 0);
    FromFieldsDerived(env, cp, cs, t, b, n, l, head);
  }

  /** Members, and everything after them, as the linker needs them. */
  ghost predicate MembersLink(env: Env, cs: seq<Constant>, t: Tail, b: Body, codes: seq<seq<Option<Code>>>) {
    && HeadLinks(env, cs, b) && IfacesLink(env, cs, b.ifaces) && FieldsLink(env, cs, b.fields)
    && MethodsLink(env, cs, t, b.methods, codes) && AttrsLink(cs, t, b.attrs)
  }

  ghost predicate HeadReads(env: Env, cp: CpView, cs: seq<Constant>, t: Tail, b: Body, head: Head) {
    HeadAt(env, t.file, cp, t.base) == Ok(head) && HeadIs(env, cp, cs, t, b, head)
  }

  lemma MembersDerived(env: Env, cp: CpView, cs: seq<Constant>, t: Tail, b: Body, codes: seq<seq<Option<Code>>>, n: Counts, l: Layout)
    returns (head: Head)
    requires Shows(t.file, cp, cs) && BodyLies(t, b) && Counted(n, t, b) && MembersLink(env, cs, t, b, codes)
    ensures HeadReads(env, cp, cs, t, b, head)
    ensures var d := DeriveMembers(env, t.file, cp, n, l);
      && d.outcome.Ok?
      && d.puts == IfacesPuts(env, cp, t, b, l)
                   + (FieldsPuts(env, cp, t, b, l)
                      + (MethodsPuts(env, cp, t, b, l) + LastPuts(cs, t, b, n, l, head, OwnSlots(cs, b))))
  {
    hide Shows, MemberTable, HeadAt, HeadLinks, IfacesLink, FieldsLink, MethodsLink, AttrsLink, DeriveFromHead, DeriveFromMethods,
         IfacesPuts, FieldsPuts, MethodsPuts, LastPuts, OwnSlots, AttrTable, Counted;
    HeadDerived(env, cp, cs, t, b);
    head := HeadAt(env, t.file, cp, t.base).value;
    assert n.posAfterCp == t.base && n.methods == |b.methods| by {
      CountedParts(n, t, b);
    }
    FromMethodsDerived(env, cp, cs, t, b, codes, n, l, head, OwnSlots(cs, b));
    FromHeadDerived(env, cp, cs, t, b, n, l, head);
    HeadEndsDerivation(env, cp, t, n, l, head);
  }

  lemma CountedParts(n: Counts, t: Tail, b: Body)
    requires Counted(n, t, b)
    ensures n.posAfterCp == t.base && n.methods == |b.methods|
  {
  }

  lemma HeadEndsDerivation(env: Env, cp: CpView, t: Tail, n: Counts, l: Layout, head: Head)
    requires n.posAfterCp == t.base && HeadAt(env, t.file, cp, t.base) == Ok(head)
    ensures DeriveMembers(env, t.file, cp, n, l) == DeriveFromHead(env, t.file, cp, n, l, head)
  {
    hide HeadAt, DeriveFromHead;
  }

  lemma HeadFirst(env: Env, cp: CpView, t: Tail, n: Counts, l: Layout) returns (head: Head)
    requires n.posAfterCp == t.base && DeriveMembers(env, t.file, cp, n, l).outcome.Ok?
    ensures HeadAt(env, t.file, cp, t.base) == Ok(head) && DeriveFromHead(env, t.file, cp, n, l, head).outcome.Ok?
  {
    hide HeadAt, DeriveFromHead;
    head := HeadAt(env, t.file, cp, t.base).value;
  }

  lemma PartHasMethods(t: Tail, b: Body)
    requires MembersPart(t, b)
    ensures MemberTable(t, b.methods, b.fieldsEnd, b.methodsEnd)
    ensures forall attrs, end :: MembersPart(t, b.(attrs := attrs, end := end))
  {
    hide MemberTable;
  }

  lemma MembersRead(env: Env, cp: CpView, cs: seq<Constant>, t: Tail, b0: Body, n: Counts, l: Layout)
    returns (b: Body, codes: seq<seq<Option<Code>>>)
    requires Shows(t.file, cp, cs) && MembersPart(t, b0) && Counted(n, t, b0)
    requires DeriveMembers(env, t.file, cp, n, l).outcome.Ok?
    ensures b == b0.(attrs := b.attrs, end := b.end) && BodyLies(t, b) && MembersLink(env, cs, t, b, codes)
  {
    hide Shows, MembersPart, HeadAt, NamesClass, IfacesLink, FieldsLink, MethodsLink, AttrsLink, DeriveFromHead,
         DeriveFromMethods, DeriveMembers, OwnSlots, AttrTable, MemberTable, Counted;
    HeadDerived(env, cp, cs, t, b0);
    CountedParts(n, t, b0);
    var head := HeadFirst(env, cp, t, n, l);
    PartHasMethods(t, b0);
    FromHeadDerived(env, cp, cs, t, b0, n, l, head);
    var attrs, end;
    codes, attrs, end := FromMethodsRead(env, cp, cs, t, b0, n, l, head, OwnSlots(cs, b0));
    b := b0.(attrs := attrs, end := end);
  }

  // ---- when the whole derives --------------------------------------------

  /** The layout is the format's, and fits exactly up to 65534 words. */
  lemma LayoutIs(cp: CpView, cs: seq<Constant>, t: Tail, b: Body)
    requires Shows(t.file, cp, cs)
    ensures var r := NewLayout(CountsOf(cp, |cs|, t, b)); var end := TableEnd(cs, b);
      && (r.Ok? <==> end <= 65534)
      && (r.Ok? ==> r == Ok(Layout(FieldsAt(cs), StaticsAt(cs, b), IfacesAt(cs, b), MethodsAt(cs, b), MrefsAt(cs, b),
                                   StringsAt(cs, b), end + end % 2)))
  {
    hide Shows, Members, MrefsUpTo, StrsUpTo, MethodsAmong, StringsAmong;
    MrefsCount(t.file, cp, cs, |cs|);
  }

  lemma ThenGoes(first: Derived<()>, next: Derived<()>)
    ensures Then(first, next).outcome.Ok? <==> first.outcome.Ok? && next.outcome.Ok?
    ensures forall words: seq<u16> | Then(first, next).outcome.Ok? ::
      Agrees(words, Then(first, next).puts) <==> Agrees(words, first.puts) && Agrees(words, next.puts)
  {
    forall words: seq<u16>
      ensures Agrees(words, first.puts + next.puts) <==> Agrees(words, first.puts) && Agrees(words, next.puts)
    {
      AgreesConcat(words, first.puts, next.puts);
    }
  }

  /** The derivation succeeds when all of its passes do, and a table agrees
      with it when it agrees with each. */
  lemma Passes(env: Env, cls: seq<byte>, cp: CpView, n: Counts, l: Layout)
    ensures var d := DeriveTable(env, cls, cp, n, l);
      && (d.outcome.Ok? <==>
            && DeriveCp(cp, n, l, 0, 0, 0, 0).outcome.Ok? && DeriveMrefs(cls, cp, n, l, 0, 0).outcome.Ok?
            && DeriveStrs(cls, cp, n, l, 0, 0).outcome.Ok? && CheckNames(env, cls, cp, n, 0).Ok?
            && DeriveMembers(env, cls, cp, n, l).outcome.Ok?)
      && forall words: seq<u16> | d.outcome.Ok? :: Agrees(words, d.puts) <==>
           && Agrees(words, DeriveCp(cp, n, l, 0, 0, 0, 0).puts) && Agrees(words, DeriveMrefs(cls, cp, n, l, 0, 0).puts)
           && Agrees(words, DeriveStrs(cls, cp, n, l, 0, 0).puts) && Agrees(words, DeriveMembers(env, cls, cp, n, l).puts)
  {
    hide DeriveCp, DeriveMrefs, DeriveStrs, CheckNames, DeriveMembers, Then;
    var members := DeriveMembers(env, cls, cp, n, l);
    var checks := Derived([], CheckNames(env, cls, cp, n, 0));
    var strs, mrefs := DeriveStrs(cls, cp, n, l, 0, 0), DeriveMrefs(cls, cp, n, l, 0, 0);
    ThenGoes(checks, members);
    ThenGoes(strs, Then(checks, members));
    ThenGoes(mrefs, Then(strs, Then(checks, members)));
    ThenGoes(DeriveCp(cp, n, l, 0, 0, 0, 0), Then(mrefs, Then(strs, Then(checks, members))));
  }

  /** A survey, a layout and a derivation all succeed. */
  ghost predicate Derives(env: Env, cls: seq<byte>, cp: CpView, cpCount: nat, pos: nat) {
    && Survey(cls, cp, cpCount, pos).Ok?
    && var n := Survey(cls, cp, cpCount, pos).value;
    && NewLayout(n).Ok? && DeriveTable(env, cls, cp, n, NewLayout(n).value).outcome.Ok?
  }

  lemma LinkableParts(env: Env, cs: seq<Constant>, t: Tail, b: Body, codes: seq<seq<Option<Code>>>)
    ensures Linkable(env, cs, t, b, codes) <==>
      && BodyLies(t, b) && TableEnd(cs, b) <= 65534 && (forall i | 0 <= i < |cs| :: ConstantLinks(env, cs, cs[i]))
      && MembersLink(env, cs, t, b, codes)
  {
    hide BodyLies, TableEnd, ConstantLinks, NamesClass, FieldsLink, MethodLinks, AttrLinks;
  }

  lemma CountsCounted(cp: CpView, cpCount: nat, t: Tail, b: Body)
    ensures Counted(CountsOf(cp, cpCount, t, b), t, b)
  {
  }

  lemma LinkableDerives(env: Env, cp: CpView, cs: seq<Constant>, t: Tail, b: Body, codes: seq<seq<Option<Code>>>)
    requires Shows(t.file, cp, cs) && Linkable(env, cs, t, b, codes)
    ensures Derives(env, t.file, cp, |cs|, t.base)
    ensures Survey(t.file, cp, |cs|, t.base) == Ok(CountsOf(cp, |cs|, t, b))
  {
    hide Shows, Linkable, Survey, NewLayout, DeriveTable, DeriveMembers, MembersLink, ConstantLinks, TableEnd, MembersPart, AttrTable,
         DeriveCp, DeriveMrefs, DeriveStrs, CheckNames, Counted;
    var n := CountsOf(cp, |cs|, t, b);
    LinkableParts(env, cs, t, b, codes);
    SurveyPasses(t, cp, |cs|, b);
    LayoutIs(cp, cs, t, b);
    var l := NewLayout(n).value;
    PassesSucceed(env, t.file, cp, cs, n, l);
    CountsCounted(cp, |cs|, t, b);
    var head := MembersDerived(env, cp, cs, t, b, codes, n, l);
    Passes(env, t.file, cp, n, l);
  }

  /** The linker takes a class exactly when it is linkable. */
  lemma DerivesLinkable(env: Env, cp: CpView, cs: seq<Constant>, t: Tail) returns (b: Body, codes: seq<seq<Option<Code>>>)
    requires Shows(t.file, cp, cs) && Derives(env, t.file, cp, |cs|, t.base)
    ensures Linkable(env, cs, t, b, codes)
    ensures Survey(t.file, cp, |cs|, t.base) == Ok(CountsOf(cp, |cs|, t, b))
  {
    hide Shows, Linkable, Survey, NewLayout, DeriveTable, DeriveMembers, MembersLink, ConstantLinks, TableEnd, BodyLies, MembersPart,
         DeriveCp, DeriveMrefs, DeriveStrs, CheckNames, Counted;
    var b0 := SurveyReads(t, cp, |cs|);
    var n := CountsOf(cp, |cs|, t, b0);
    LayoutIs(cp, cs, t, b0);
    var l := NewLayout(n).value;
    PassesSucceed(env, t.file, cp, cs, n, l);
    Passes(env, t.file, cp, n, l);
    CountsCounted(cp, |cs|, t, b0);
    b, codes := MembersRead(env, cp, cs, t, b0, n, l);
    SameEnd(cs, b0, b);
    LinkableParts(env, cs, t, b, codes);
  }

  lemma SameEnd(cs: seq<Constant>, b0: Body, b: Body)
    requires b == b0.(attrs := b.attrs, end := b.end)
    ensures TableEnd(cs, b) == TableEnd(cs, b0)
  {
  }
}
