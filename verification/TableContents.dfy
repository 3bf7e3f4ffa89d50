/** A table that agrees with the derivation of a linkable class says, word by
    word, what the class file says. */
module TableContents {
  import opened Bytes
  import opened ClassFile
  import opened ClassSpec
  import opened ConstantsExact
  import opened MembersExact
  import opened MethodsExact
  import opened Sinks
  import opened SurveyExact
  import opened TableExact
  import DeriveFacts
  import Linking

  /** The layout of a body that fits. */
  function LayoutOf(cs: seq<Constant>, b: Body): Layout {
    Layout(FieldsAt(cs), StaticsAt(cs, b), IfacesAt(cs, b), MethodsAt(cs, b), MrefsAt(cs, b), StringsAt(cs, b),
           TableEnd(cs, b) + TableEnd(cs, b) % 2)
  }

  // ---- the words of the constant pool ------------------------------------

  lemma ShownIsFull(cls: seq<byte>, cp: CpView, cs: seq<Constant>)
    requires Shows(cls, cp, cs)
    ensures DeriveFacts.FullView(cp)
  {
    forall i | 0 <= i < |cp.offsets|
      ensures cp.offsets[i].Some? && cp.offsets[i].value < 0x1_0000
    {
      assert ShowsEntry(cls, cp, i, cs[i]);
    }
  }

  lemma {:induction false} AmongBelow(cs: seq<Constant>, i: nat, n: nat)
    requires i < n <= |cs|
    ensures MethodsAmong(cs, i) + (if cs[i].ConstMethod? then 1 else 0) <= MethodsAmong(cs, n)
    ensures StringsAmong(cs, i) + (if cs[i].ConstString? then 1 else 0) <= StringsAmong(cs, n)
  {
    if i < n - 1 {
      AmongBelow(cs, i, n - 1);
    }
  }

  /** The word of entry `i`. */
  lemma EntryWordHeld(cls: seq<byte>, cp: CpView, cs: seq<Constant>, n: Counts, l: Layout, b: Body, i: nat, words: seq<u16>)
    requires Shows(cls, cp, cs) && n.cpCount == |cs| && l == LayoutOf(cs, b) && l.totalWords <= 65535 && i < |cs|
    requires Agrees(words, DeriveCp(cp, n, l, 0, 0, 0, 0).puts)
    ensures 26 + i < |words|
    ensures words[26 + i]
            == if cs[i].ConstMethod? then MrefsAt(cs, b) + 2 * MethodsAmong(cs, i)
               else if cs[i].ConstString? then StringsAt(cs, b) + 2 * StringsAmong(cs, i)
               else cp.offsets[i].value
  {
    hide Shows, DeriveCp, Agrees, Members, MethodsAmong, StringsAmong, MrefsUpTo, StrsUpTo;
    ShownIsFull(cls, cp, cs);
    EntryShown(cls, cp, cs, i);
    CountsStart(cp);
    ShownSize(cls, cp, cs);
    Linking.CpWordHolds(words, cp, n, l, 0, 0, 0, 0, i);
    MrefsCount(cls, cp, cs, i);
    AmongBelow(cs, i, |cs|);
    SmallAsU16(cp.offsets[i].value);
    if cs[i].ConstMethod? {
      SmallAsU16(l.mrefsOff + 2 * MethodsAmong(cs, i));
    } else if cs[i].ConstString? {
      SmallAsU16(l.strsOff + 2 * StringsAmong(cs, i));
    }
  }

  lemma ShownSize(cls: seq<byte>, cp: CpView, cs: seq<Constant>)
    requires Shows(cls, cp, cs)
    ensures |cp.tags| == |cp.offsets| == |cs|
  {
  }

  lemma CountsStart(cp: CpView)
    ensures MrefsUpTo(cp, 0) == 0 && StrsUpTo(cp, 0) == 0
  {
  }

  lemma TagHeld(cls: seq<byte>, cp: CpView, cs: seq<Constant>, n: Counts, l: Layout, i: nat, words: seq<u16>)
    requires Shows(cls, cp, cs) && n.cpCount == |cs| && i < |cs|
    requires Agrees(words, DeriveCp(cp, n, l, 0, 0, 0, 0).puts)
    ensures |cp.tags| == |cs| && ClassSpec.TagByte(words, |cs|, i, cp.tags[i])
  {
    hide Shows, DeriveCp, Agrees;
    ShownIsFull(cls, cp, cs);
    ShownSize(cls, cp, cs);
    Linking.TagWordHolds(words, cp, n, l, 0, 0, 0, 0, i / 2);
    if i % 2 == 0 {
      assert i == 2 * (i / 2);
    } else {
      assert i == 2 * (i / 2) + 1;
    }
  }

  /** An odd number of tags leaves the last word half empty. */
  ghost predicate LastTagAlone(words: seq<u16>, n: nat) {
    n % 2 == 1 ==> 26 + n + n / 2 < |words| && words[26 + n + n / 2] < 0x100
  }

  lemma LastTagHeld(cls: seq<byte>, cp: CpView, cs: seq<Constant>, n: Counts, l: Layout, words: seq<u16>)
    requires Shows(cls, cp, cs) && n.cpCount == |cs|
    requires Agrees(words, DeriveCp(cp, n, l, 0, 0, 0, 0).puts)
    ensures LastTagAlone(words, |cs|)
  {
    hide Shows, DeriveCp, Agrees;
    ShownIsFull(cls, cp, cs);
    ShownSize(cls, cp, cs);
    if |cs| % 2 == 1 {
      Linking.TagWordHolds(words, cp, n, l, 0, 0, 0, 0, |cs| / 2);
      assert |cs| == 2 * (|cs| / 2) + 1;
    }
  }

  /** Everything the table says of entry `i`. */
  lemma EntryHeld(env: Env, cls: seq<byte>, cp: CpView, cs: seq<Constant>, n: Counts, l: Layout, b: Body, i: nat, words: seq<u16>)
    requires Shows(cls, cp, cs) && n.cpCount == |cs| && l == LayoutOf(cs, b) && l.totalWords <= 65535 && i < |cs|
    requires DeriveTable(env, cls, cp, n, l).outcome.Ok? && Agrees(words, DeriveTable(env, cls, cp, n, l).puts)
    ensures |cp.tags| == |cp.offsets| == |cs| && cp.offsets[i].Some?
    ensures EntryWords(cs, b, i, cp.offsets[i].value, words) && ClassSpec.TagByte(words, |cs|, i, cp.tags[i])
    ensures cs[i].ConstText? ==> 26 + i < |words| && Some(words[26 + i]) == cp.offsets[i]
  {
    hide Shows, DeriveTable, DeriveCp, DeriveMrefs, DeriveStrs, CheckNames, DeriveMembers, Agrees, LayoutOf, MethodsAmong,
         StringsAmong, MrefRecord, ClassSpec.TagByte;
    Passes(env, cls, cp, n, l);
    ShownSize(cls, cp, cs);
    EntryWordHeld(cls, cp, cs, n, l, b, i, words);
    TagHeld(cls, cp, cs, n, l, i, words);
    NoneYet(cs);
    LayoutParts(cs, b, l);
    EntryShown(cls, cp, cs, i);
    if cs[i].ConstMethod? {
      MrefPut(cls, cp, cs, n, l, 0, i, words);
    } else if cs[i].ConstString? {
      StringPut(cls, cp, cs, n, l, 0, i, words);
    }
  }

  lemma NoneYet(cs: seq<Constant>)
    ensures MethodsAmong(cs, 0) == 0 && StringsAmong(cs, 0) == 0
  {
  }

  lemma LayoutParts(cs: seq<Constant>, b: Body, l: Layout)
    requires l == LayoutOf(cs, b)
    ensures l.mrefsOff == MrefsAt(cs, b) && l.strsOff == StringsAt(cs, b)
    ensures l.fieldsOff == FieldsAt(cs) && l.staticsOff == StaticsAt(cs, b) && l.ifacesOff == IfacesAt(cs, b)
    ensures l.methodsOff == MethodsAt(cs, b) && l.totalWords == TableEnd(cs, b) + TableEnd(cs, b) % 2
  {
  }

  // ---- the header --------------------------------------------------------

  lemma FoundSays(cs: seq<Constant>, t: Tail, attrs: seq<Attr>, p: nat, end: nat)
    requires AttrsLie(t, attrs, p, end)
    ensures PointsToLast(cs, t, attrs, BOOTSTRAP_ATTR, 6, Found(cs, t, attrs, NOTHING).bsm)
    ensures SourceFileSays(cs, t, attrs, Found(cs, t, attrs, NOTHING).sourceFile)
  {
    hide Named, IsSourceFile, AttrsLie, LastFrom, SourceFrom;
    LastIs(cs, t, attrs, BOOTSTRAP_ATTR, 6, 0);
    SourceIs(cs, t, attrs, p, end, 0);
  }

  lemma {:induction false} LastInFile(cs: seq<Constant>, t: Tail, attrs: seq<Attr>, p: nat, end: nat, w: nat)
    requires AttrsLie(t, attrs, p, end) && |t.file| <= 65535 && w < 0x1_0000
    ensures LastFrom(cs, t, attrs, BOOTSTRAP_ATTR, 6, w) < 0x1_0000
    decreases |attrs|
  {
    hide Named;
    if attrs != [] {
      AttrReaches(t, attrs, p, end);
      LastInFile(cs, t, attrs[1..], p + 6 + attrs[0].len, end,
                 if Named(cs, attrs[0], BOOTSTRAP_ATTR) then t.base + attrs[0].at + 6 else w);
    }
  }

  /** The words of the header, as put. */
  lemma HeaderHeld(cls: seq<byte>, n: Counts, l: Layout, head: Head, own: nat, a: ClassAttrs, words: seq<u16>)
    requires Agrees(words, HeaderPuts(cls, n, l, head, own, a)) && |words| >= 26
    ensures words[0] == 0x4B03 && words[1] == AsU16(l.totalWords) && words[2] == AsU16(|cls|) && words[3] == AsU16(n.cpCount)
    ensures words[4] == AsU16(n.fields) && words[5] == AsU16(n.statics) && words[6] == AsU16(n.ifaces)
    ensures words[7] == AsU16(n.methods) && words[8] == AsU16(n.mrefs) && words[9] == AsU16(l.methodsOff)
    ensures words[10] == AsU16(l.mrefsOff) && words[11] == AsU16(a.bsm) && words[12] == head.access
    ensures words[13] == AsU16(head.name.r) && words[14] == AsU16(head.super.r) && words[15] == a.sourceFile
    ensures Holds32(words, 16, head.name.hash) && Holds32(words, 18, head.super.hash)
    ensures words[20] == AsU16(n.strs) && words[21] == AsU16(own)
  {
    var puts := HeaderPuts(cls, n, l, head, own, a);
    forall k | 0 <= k < 22
      ensures puts[k].word == k && words[k] == puts[k].value
    {
      assert puts[k].Put?;
    }
  }

  /** The words of the header that count and place. */
  lemma CountWords(cp: CpView, cs: seq<Constant>, t: Tail, b: Body, l: Layout)
    requires Shows(t.file, cp, cs) && l == LayoutOf(cs, b) && l.totalWords <= 65535
    ensures var n := CountsOf(cp, |cs|, t, b);
      && AsU16(l.totalWords) == l.totalWords && AsU16(n.cpCount) == |cs|
      && AsU16(n.fields) == |Members(b.fields, false)| && AsU16(n.statics) == |Members(b.fields, true)|
      && AsU16(n.ifaces) == |b.ifaces| && AsU16(n.methods) == |b.methods|
      && AsU16(n.mrefs) == MethodsAmong(cs, |cs|) && AsU16(n.strs) == StringsAmong(cs, |cs|)
      && AsU16(l.methodsOff) == MethodsAt(cs, b) && AsU16(l.mrefsOff) == MrefsAt(cs, b)
  {
    hide Shows, Members, MethodsAmong, StringsAmong, MrefsUpTo, StrsUpTo, AsU16;
    MrefsCount(t.file, cp, cs, |cs|);
    SmallAsU16(l.totalWords);
    SmallAsU16(|cs|);
    SmallAsU16(|Members(b.fields, false)|);
    SmallAsU16(|Members(b.fields, true)|);
    SmallAsU16(|b.ifaces|);
    SmallAsU16(|b.methods|);
    SmallAsU16(MethodsAmong(cs, |cs|));
    SmallAsU16(StringsAmong(cs, |cs|));
    SmallAsU16(l.methodsOff);
    SmallAsU16(l.mrefsOff);
  }

  lemma SmallOwn(env: Env, cs: seq<Constant>, b: Body)
    requires FieldsLink(env, cs, b.fields)
    ensures AsU16(OwnSlots(cs, b)) == SlotsTo(cs, Members(b.fields, false), |Members(b.fields, false)|)
  {
    hide Members, SlotsTo, SlotsFrom;
    SlotsBothWays(cs, Members(b.fields, false));
  }

  lemma HeaderHolds(env: Env, cp: CpView, cs: seq<Constant>, t: Tail, b: Body, l: Layout, head: Head, words: seq<u16>)
    requires Shows(t.file, cp, cs) && BodyLies(t, b) && FieldsLink(env, cs, b.fields) && l == LayoutOf(cs, b)
    requires |t.file| <= 65535 && |words| == l.totalWords <= 65535 && HeadReads(env, cp, cs, t, b, head)
    requires TextWords(cp, cs, words)
    requires Agrees(words, HeaderPuts(t.file, CountsOf(cp, |cs|, t, b), l, head, OwnSlots(cs, b), Found(cs, t, b.attrs, NOTHING)))
    ensures HeaderSays(env, cs, t, b, words)
  {
    hide Shows, Agrees, MembersPart, AttrsLie, Members, MethodsAmong, StringsAmong, HeadAt, ClassNameRef, Found, OwnSlots, SlotsTo,
         FieldsLink, TextWords, HeaderPuts, CountsOf, NamesClass, ClassWords, Holds32, LayoutOf, PointsToLast, SourceFileSays;
    var a := Found(cs, t, b.attrs, NOTHING);
    LayoutParts(cs, b, l);
    HeaderHeld(t.file, CountsOf(cp, |cs|, t, b), l, head, OwnSlots(cs, b), a, words);
    CountWords(cp, cs, t, b, l);
    FoundSays(cs, t, b.attrs, b.methodsEnd + 2, b.end);
    FoundIsSmall(cs, t, b.attrs, b.methodsEnd + 2, b.end);
    SmallOwn(env, cs, b);
    HeadRefs(env, cp, cs, t, b, head, words);
    AccessReads(t, b);
  }

  lemma AccessReads(t: Tail, b: Body)
    requires MembersPart(t, b)
    ensures b.access < 0x1_0000
  {
  }

  lemma FoundIsSmall(cs: seq<Constant>, t: Tail, attrs: seq<Attr>, p: nat, end: nat)
    requires AttrsLie(t, attrs, p, end) && |t.file| <= 65535
    ensures AsU16(Found(cs, t, attrs, NOTHING).bsm) == Found(cs, t, attrs, NOTHING).bsm
  {
    hide AttrsLie, LastFrom, SourceFrom;
    LastInFile(cs, t, attrs, p, end, 0);
  }

  /** The class's own name, and its superclass's. */
  lemma HeadRefs(env: Env, cp: CpView, cs: seq<Constant>, t: Tail, b: Body, head: Head, words: seq<u16>)
    requires Shows(t.file, cp, cs) && HeadReads(env, cp, cs, t, b, head) && TextWords(cp, cs, words) && |words| >= 26
    requires words[13] == AsU16(head.name.r) && words[14] == AsU16(head.super.r)
    requires Holds32(words, 16, head.name.hash) && Holds32(words, 18, head.super.hash)
    ensures ClassWords(env, cs, b.thisClass, words, 13, 16)
    ensures if b.superClass == 0 then words[14] == 0 && Holds32(words, 18, 0) else ClassWords(env, cs, b.superClass, words, 14, 18)
  {
    hide Shows, HeadAt, ClassNameRef, TextWords, ClassWords, Holds32;
    ClassWordsHeld(env, cp, cs, t, b.thisClass, words, 13, 16);
    if b.superClass != 0 {
      ClassWordsHeld(env, cp, cs, t, b.superClass, words, 14, 18);
    }
  }

  // ---- the whole table ---------------------------------------------------

  /** What every agreeing table holds besides the constant pool. */
  ghost predicate Agreeing(env: Env, cp: CpView, cs: seq<Constant>, t: Tail, b: Body, l: Layout, words: seq<u16>, head: Head) {
    && HeadReads(env, cp, cs, t, b, head)
    && Agrees(words, IfacesPuts(env, cp, t, b, l)) && Agrees(words, FieldsPuts(env, cp, t, b, l))
    && Agrees(words, MethodsPuts(env, cp, t, b, l))
    && Agrees(words, HeaderPuts(t.file, CountsOf(cp, |cs|, t, b), l, head, OwnSlots(cs, b), Found(cs, t, b.attrs, NOTHING)))
    && Agrees(words, PadPuts(CountsOf(cp, |cs|, t, b), l))
  }

  lemma AgreesByMembers(env: Env, cp: CpView, cs: seq<Constant>, t: Tail, b: Body, codes: seq<seq<Option<Code>>>, l: Layout,
                        words: seq<u16>) returns (head: Head)
    requires Shows(t.file, cp, cs) && Linkable(env, cs, t, b, codes)
    requires Agrees(words, DeriveMembers(env, t.file, cp, CountsOf(cp, |cs|, t, b), l).puts)
    ensures Agreeing(env, cp, cs, t, b, l, words, head)
  {
    hide Shows, Linkable, Agrees, DeriveMembers, MembersLink, MembersPart, AttrTable, CountsOf, HeaderPuts, PadPuts, Found, OwnSlots,
         IfacesPuts, FieldsPuts, MethodsPuts, Counted, HeadReads;
    var n := CountsOf(cp, |cs|, t, b);
    LinkableParts(env, cs, t, b, codes);
    CountsCounted(cp, |cs|, t, b);
    head := MembersDerived(env, cp, cs, t, b, codes, n, l);
    var last := LastPuts(cs, t, b, n, l, head, OwnSlots(cs, b));
    var methods, fields := MethodsPuts(env, cp, t, b, l), FieldsPuts(env, cp, t, b, l);
    AgreesConcat(words, IfacesPuts(env, cp, t, b, l), fields + (methods + last));
    AgreesConcat(words, fields, methods + last);
    AgreesConcat(words, methods, last);
    AgreesConcat(words, HeaderPuts(t.file, n, l, head, OwnSlots(cs, b), Found(cs, t, b.attrs, NOTHING)), PadPuts(n, l));
  }

  lemma AllIfaces(env: Env, cp: CpView, cs: seq<Constant>, t: Tail, b: Body, l: Layout, words: seq<u16>)
    requires Shows(t.file, cp, cs) && MembersPart(t, b) && IfacesLink(env, cs, b.ifaces) && TextWords(cp, cs, words)
    requires Agrees(words, IfacesPuts(env, cp, t, b, l))
    ensures forall k | 0 <= k < |b.ifaces| ::
      ClassWords(env, cs, b.ifaces[k], words, l.ifacesOff + 3 * k, l.ifacesOff + 3 * k + 1)
  {
    hide Shows, MembersPart, TextWords, Agrees, DeriveIfaces, ClassWords, NamesClass;
    IfacesDerived(env, cp, cs, t, b, l, 0);
    forall k | 0 <= k < |b.ifaces|
      ensures ClassWords(env, cs, b.ifaces[k], words, l.ifacesOff + 3 * k, l.ifacesOff + 3 * k + 1)
    {
      IfacesHeld(env, cp, cs, t, b, l, 0, k, words);
    }
  }

  lemma AllFields(env: Env, cp: CpView, cs: seq<Constant>, t: Tail, b: Body, l: Layout, words: seq<u16>)
    requires Shows(t.file, cp, cs) && MemberTable(t, b.fields, 8 + 2 * |b.ifaces|, b.fieldsEnd)
    requires FieldsLink(env, cs, b.fields) && Agrees(words, FieldsPuts(env, cp, t, b, l))
    ensures Recorded(cs, Members(b.fields, false), true, words, l.fieldsOff, 0, 0)
    ensures Recorded(cs, Members(b.fields, true), false, words, l.staticsOff, 0, 0)
  {
    hide Shows, MembersLie, Agrees, DeriveFields, FieldsLink, Recorded, Members;
    var p := 8 + 2 * |b.ifaces| + 2;
    FieldsCome(env, cp, cs, t, b, l);
    FieldsHeld(env, cp, cs, t, l, b.fields, |b.fields|, 0, FieldsEnd(t.base + p, 0, 0, 0), p, b.fieldsEnd, words);
  }

  lemma RecordsSay(cs: seq<Constant>, ms: seq<Member>, words: seq<u16>, off: nat)
    ensures Recorded(cs, ms, true, words, off, 0, 0) ==>
      forall k | 0 <= k < |ms| :: FieldRecord(cs, ms[k], SlotsTo(cs, ms, k), words, off + 3 * k)
    ensures Recorded(cs, ms, false, words, off, 0, 0) ==>
      forall k | 0 <= k < |ms| :: FieldRecord(cs, ms[k], k, words, off + 3 * k)
  {
    hide FieldRecord, SlotsTo;
  }

  lemma AllMethods(env: Env, cp: CpView, cs: seq<Constant>, t: Tail, b: Body, codes: seq<seq<Option<Code>>>, l: Layout, words: seq<u16>)
    requires Shows(t.file, cp, cs) && MemberTable(t, b.methods, b.fieldsEnd, b.methodsEnd)
    requires MethodsLink(env, cs, t, b.methods, codes) && |t.file| <= 65535 && Agrees(words, MethodsPuts(env, cp, t, b, l))
    ensures |codes| == |b.methods|
    ensures forall k | 0 <= k < |b.methods| ::
      MethodRecord(env, cs, t, b.methods[k], codes[k], words, l.methodsOff + 6 * k)
  {
    hide Shows, MembersLie, Agrees, DeriveMethods, MethodRecord, MethodLinks;
    MethodsHeld(env, cp, cs, t, l, b.methods, codes, |b.methods|, 0, b.fieldsEnd + 2, b.methodsEnd, words);
  }

  lemma PadHeld(cp: CpView, cs: seq<Constant>, t: Tail, b: Body, l: Layout, words: seq<u16>)
    requires Shows(t.file, cp, cs) && l == LayoutOf(cs, b) && Agrees(words, PadPuts(CountsOf(cp, |cs|, t, b), l))
    ensures TableEnd(cs, b) % 2 == 1 ==> TableEnd(cs, b) < |words| && words[TableEnd(cs, b)] == 0
  {
    hide Shows, MethodsAmong, StringsAmong, MrefsUpTo, StrsUpTo, Members;
    MrefsCount(t.file, cp, cs, |cs|);
    if TableEnd(cs, b) % 2 == 1 {
      assert PadPuts(CountsOf(cp, |cs|, t, b), l)[0] == Put(TableEnd(cs, b), 0);
    }
  }

  /** The theorem of this module. */
  lemma TableHeld(env: Env, cp: CpView, cs: seq<Constant>, t: Tail, b: Body, codes: seq<seq<Option<Code>>>, n: Counts, l: Layout,
                  words: seq<u16>)
    requires Shows(t.file, cp, cs) && Linkable(env, cs, t, b, codes) && |t.file| <= 65535
    requires n == CountsOf(cp, |cs|, t, b) && l == LayoutOf(cs, b) && |words| == l.totalWords <= 65535
    requires DeriveTable(env, t.file, cp, n, l).outcome.Ok? && Agrees(words, DeriveTable(env, t.file, cp, n, l).puts)
    ensures TableSays(env, cs, t, b, codes, words)
    ensures |cp.tags| == |cp.offsets| == |cs|
    ensures forall i | 0 <= i < |cs| ::
      cp.offsets[i].Some? && EntryWords(cs, b, i, cp.offsets[i].value, words) && ClassSpec.TagByte(words, |cs|, i, cp.tags[i])
    ensures TextWords(cp, cs, words) && LastTagAlone(words, |cs|)
  {
    hide Shows, Linkable, Agrees, DeriveTable, DeriveCp, DeriveMrefs, DeriveStrs, CheckNames, DeriveMembers, LayoutOf, CountsOf, EntryWords, ClassSpec.TagByte, Agreeing, HeaderSays, FieldRecord,
         ClassWords, MethodRecord, SlotsTo, Members;
    ShownSize(t.file, cp, cs);
    CountsEntries(cp, cs, t, b);
    forall i | 0 <= i < |cs|
      ensures cp.offsets[i].Some? && EntryWords(cs, b, i, cp.offsets[i].value, words) && ClassSpec.TagByte(words, |cs|, i, cp.tags[i])
      ensures cs[i].ConstText? ==> 26 + i < |words| && Some(words[26 + i]) == cp.offsets[i]
    {
      EntryHeld(env, t.file, cp, cs, n, l, b, i, words);
    }
    Passes(env, t.file, cp, n, l);
    LastTagHeld(t.file, cp, cs, n, l, words);
    MembersHold(env, cp, cs, t, b, codes, n, l, words);
  }

  lemma CountsEntries(cp: CpView, cs: seq<Constant>, t: Tail, b: Body)
    ensures CountsOf(cp, |cs|, t, b).cpCount == |cs|
  {
  }

  lemma MembersHold(env: Env, cp: CpView, cs: seq<Constant>, t: Tail, b: Body, codes: seq<seq<Option<Code>>>, n: Counts, l: Layout,
                    words: seq<u16>)
    requires Shows(t.file, cp, cs) && Linkable(env, cs, t, b, codes) && |t.file| <= 65535
    requires n == CountsOf(cp, |cs|, t, b) && l == LayoutOf(cs, b) && |words| == l.totalWords <= 65535
    requires DeriveTable(env, t.file, cp, n, l).outcome.Ok? && Agrees(words, DeriveTable(env, t.file, cp, n, l).puts)
    requires TextWords(cp, cs, words)
    ensures TableSays(env, cs, t, b, codes, words)
  {
    hide Shows, Linkable, Agrees, DeriveTable, DeriveMembers, LayoutOf, CountsOf, HeaderSays, FieldRecord, ClassWords, MethodRecord,
         SlotsTo, Members, DeriveCp, DeriveMrefs, DeriveStrs, CheckNames, Recorded, TextWords, MembersPart, AttrTable, HeadLinks,
         IfacesLink, FieldsLink, MethodsLink, AttrsLink, IfacesPuts, FieldsPuts, MethodsPuts, HeaderPuts, PadPuts, OwnSlots, Found,
         FieldsAt, StaticsAt, IfacesAt, MethodsAt, TableEnd, HeadReads;
    Passes(env, t.file, cp, n, l);
    var head := AgreesByMembers(env, cp, cs, t, b, codes, l, words);
    LinkableParts(env, cs, t, b, codes);
    LayoutParts(cs, b, l);
    HeaderHolds(env, cp, cs, t, b, l, head, words);
    AllIfaces(env, cp, cs, t, b, l, words);
    PartTables(t, b);
    AllFields(env, cp, cs, t, b, l, words);
    RecordsSay(cs, Members(b.fields, false), words, l.fieldsOff);
    RecordsSay(cs, Members(b.fields, true), words, l.staticsOff);
    AllMethods(env, cp, cs, t, b, codes, l, words);
    PadHeld(cp, cs, t, b, l, words);
  }

  lemma PartTables(t: Tail, b: Body)
    requires MembersPart(t, b)
    ensures MemberTable(t, b.fields, 8 + 2 * |b.ifaces|, b.fieldsEnd) && MemberTable(t, b.methods, b.fieldsEnd, b.methodsEnd)
  {
    hide MemberTable;
  }
}
