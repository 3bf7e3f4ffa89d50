/** What `Link::validate` accepts: a link table that says what its class file
    says, read by the class file format alone. */
module AcceptedTable {
  import opened Bytes
  import opened ClassFile
  import opened ClassGrammar
  import opened ClassSpec
  import opened ConstantsExact
  import opened LinkTable
  import opened SurveyExact
  import opened TableContents
  import opened TableExact
  import opened WalkExact
  import DeriveFacts
  import Linking
  import MembersExact
  import Sinks

  // ---- entries and visits ------------------------------------------------

  /** The visit of each index: its entry's, or none. */
  ghost predicate VisitedByIndex(cls: seq<byte>, entries: seq<Entry>, visits: seq<Visit>, idx: nat, count: nat) {
    && |visits| == (if idx < count then count - idx else 0)
    && (forall e | e in entries ::
          e.at < |cls| && idx <= e.index < count && visits[e.index - idx] == Visit(e.index, cls[e.at], e.at + 1))
    && forall k | idx <= k < count && (forall e | e in entries :: e.index != k) :: visits[k - idx] == Visit(k, 0, 0)
  }

  lemma {:induction false} VisitsByIndex(
    cls: seq<byte>, inPlace: bool, count: nat, entries: seq<Entry>, idx: nat, at: nat, idx': nat, at': nat)
    requires Chain(cls, inPlace, count, entries, idx, at, idx', at') && idx' >= count
    ensures forall e | e in entries :: e.at < |cls|
    ensures VisitedByIndex(cls, entries, VisitsOf(cls, count, entries), idx, count)
    decreases |entries|
  {
    hide EntryLies;
    if entries != [] {
      ChainInside(cls, inPlace, count, entries, idx, at, idx', at');
      var e, more := entries[0], entries[1..];
      var next := idx + Indexes(cls[at]);
      VisitsByIndex(cls, inPlace, count, more, next, e.end, idx', at');
      var mine := [Visit(idx, cls[at], at + 1)] + if Indexes(cls[at]) == 2 && idx + 1 < count then [Visit(idx + 1, 0, 0)] else [];
      VisitsCons(cls, e, more, mine, VisitsOf(cls, count, more), idx, next, count);
      assert entries == [e] + more;
    }
  }

  lemma VisitsCons(cls: seq<byte>, e: Entry, more: seq<Entry>, mine: seq<Visit>, rest: seq<Visit>, idx: nat, next: nat, count: nat)
    requires e.at < |cls| && e.index == idx < count && next == idx + Indexes(cls[e.at])
    requires mine == [Visit(idx, cls[e.at], e.at + 1)] + if next == idx + 2 && idx + 1 < count then [Visit(idx + 1, 0, 0)] else []
    requires VisitedByIndex(cls, more, rest, next, count)
    ensures VisitedByIndex(cls, [e] + more, mine + rest, idx, count)
  {
    var all, entries := mine + rest, [e] + more;
    forall x | x in entries
      ensures x.at < |cls| && idx <= x.index < count && all[x.index - idx] == Visit(x.index, cls[x.at], x.at + 1)
    {
      if x != e {
        assert x in more;
      }
    }
    forall k | idx <= k < count && (forall x | x in entries :: x.index != k)
      ensures all[k - idx] == Visit(k, 0, 0)
    {
      assert e in entries;
      assert forall x | x in more :: x in entries;
    }
  }

  lemma {:induction false} ChainEntriesLie(
    cls: seq<byte>, inPlace: bool, count: nat, entries: seq<Entry>, idx: nat, at: nat, idx': nat, at': nat)
    requires Chain(cls, inPlace, count, entries, idx, at, idx', at')
    ensures forall e | e in entries :: EntryLies(cls, inPlace, e)
    decreases |entries|
  {
    hide EntryLies;
    if entries != [] {
      ChainAt(cls, inPlace, count, entries, idx, at, idx', at');
      ChainEntriesLie(cls, inPlace, count, entries[1..], idx + Indexes(cls[at]), entries[0].end, idx', at');
      assert entries == [entries[0]] + entries[1..];
    }
  }

  lemma ChainAt(cls: seq<byte>, inPlace: bool, count: nat, entries: seq<Entry>, idx: nat, at: nat, idx': nat, at': nat)
    requires Chain(cls, inPlace, count, entries, idx, at, idx', at') && entries != []
    ensures at < |cls|
  {
  }

  /** All visits of a walk, index 0 first. */
  ghost predicate Visited(cls: seq<byte>, entries: seq<Entry>, visits: seq<Visit>, count: nat) {
    && |visits| == (if count == 0 then 1 else count)
    && (forall e | e in entries ::
          e.at < |cls| && 1 <= e.index < count && visits[e.index] == Visit(e.index, cls[e.at], e.at + 1))
    && forall k | 0 <= k < |visits| && (forall e | e in entries :: e.index != k) :: visits[k] == Visit(k, 0, 0)
  }

  lemma EntriesVisited(cls: seq<byte>, form: Utf8Form, count: nat, entries: seq<Entry>, end: nat)
    requires |cls| <= 65535 && PoolLies(cls, InPlace(form), count, entries, end)
    ensures Visited(cls, entries, WalkCp(cls, form).visits, count)
    ensures forall e | e in entries :: EntryLies(cls, InPlace(form), e)
  {
    hide EntryLies, WalkCp;
    VisitsAreEntries(cls, form, count, entries, end);
    var idx :| idx >= count && Chain(cls, InPlace(form), count, entries, 1, 10, idx, end);
    VisitsByIndex(cls, InPlace(form), count, entries, 1, 10, idx, end);
    ChainEntriesLie(cls, InPlace(form), count, entries, 1, 10, idx, end);
    FirstVisited(cls, entries, VisitsOf(cls, count, entries), count);
  }

  lemma FirstVisited(cls: seq<byte>, entries: seq<Entry>, rest: seq<Visit>, count: nat)
    requires VisitedByIndex(cls, entries, rest, 1, count)
    ensures Visited(cls, entries, [Visit(0, 0, 0)] + rest, count)
  {
    var all := [Visit(0, 0, 0)] + rest;
    forall e | e in entries
      ensures e.at < |cls| && 1 <= e.index < count && all[e.index] == Visit(e.index, cls[e.at], e.at + 1)
    {
      assert rest[e.index - 1] == Visit(e.index, cls[e.at], e.at + 1);
    }
    forall k | 0 <= k < |all| && (forall e | e in entries :: e.index != k)
      ensures all[k] == Visit(k, 0, 0)
    {
      if k > 0 {
        assert rest[k - 1] == Visit(k, 0, 0);
      }
    }
  }

  // ---- the constants of a pooled class -----------------------------------

  function Value(o: Option<u16>): nat { if o.Some? then o.value else 0 }

  /** The constant an entry shows: its tag, its data, its string if it is one. */
  function ConstantOf(cls: seq<byte>, tag: byte, off: nat, text: seq<byte>): Constant {
    match tag
    case 1 => ConstText(text)
    case 7 => ConstClass(Value(Be16(cls, off)))
    case 8 => ConstString(Value(Be16(cls, off)))
    case 10 => ConstMethod(false, Value(Be16(cls, off)), Value(Be16(cls, off + 2)))
    case 11 => ConstMethod(true, Value(Be16(cls, off)), Value(Be16(cls, off + 2)))
    case 12 => ConstNameAndType(Value(Be16(cls, off)), Value(Be16(cls, off + 2)))
    case _ => ConstOther
  }

  function ViewText(cp: CpView, i: nat): seq<byte> {
    match Utf8(cp, i)
    case None => []
    case Some(bytes) => bytes
  }

  function ConstantsIn(cls: seq<byte>, visits: seq<Visit>, cp: CpView): (cs: seq<Constant>)
    ensures |cs| == |visits|
  {
    seq(|visits|, i requires 0 <= i < |visits| => ConstantOf(cls, visits[i].tag, visits[i].off, ViewText(cp, i)))
  }

  /** An entry that lies in the file has the items its constant needs. */
  lemma EntrySays(cls: seq<byte>, inPlace: bool, e: Entry, text: seq<byte>)
    requires EntryLies(cls, inPlace, e) && cls[e.at] != 1
    ensures Says(cls, e, ConstantOf(cls, cls[e.at], e.at + 1, text))
  {
    hide Sum, FixedEntryLen;
    EntryWidth(cls, inPlace, e);
  }

  lemma EntryWidth(cls: seq<byte>, inPlace: bool, e: Entry)
    requires EntryLies(cls, inPlace, e)
    ensures cls[e.at] in [7, 8] ==> e.at + 3 <= |cls|
    ensures cls[e.at] in [10, 11, 12] ==> e.at + 5 <= |cls|
  {
    DataLengths(cls[e.at]);
  }

  /** The builder's view of these visits. */
  ghost predicate Views(visits: seq<Visit>, cp: CpView) {
    && |cp.tags| == |cp.offsets| == |visits|
    && forall k | 0 <= k < |visits| ::
         && cp.tags[k] == visits[k].tag && cp.offsets[k].Some? && cp.offsets[k].value < 0x1_0000
         && if visits[k].tag == 1 then PoolUtf8(cp.pool, cp.offsets[k].value).Some?
            else cp.offsets[k].value == visits[k].off
  }

  lemma ViewIsOf(cls: seq<byte>, refs: seq<u16>, pool: seq<byte>)
    requires |cls| <= 65535 && Linking.RefsNameEntries(pool, refs)
    requires Linking.ViewOffsets(WalkCp(cls, Pooled).visits, refs).Ok?
    ensures var w := WalkCp(cls, Pooled);
      Views(w.visits, CpView(Linking.VisitTags(w.visits), Linking.ViewOffsets(w.visits, refs).value, pool))
  {
    hide WalkCp, Linking.ViewOffsets;
    var visits := WalkCp(cls, Pooled).visits;
    var offsets := Linking.ViewOffsets(visits, refs).value;
    Linking.WalkVisits(cls, Pooled);
    Linking.OffsetsAreFull(visits, refs);
    forall k | 0 <= k < |visits|
      ensures offsets[k].Some? && offsets[k].value < 0x1_0000
      ensures if visits[k].tag == 1 then PoolUtf8(pool, offsets[k].value).Some? else offsets[k].value == visits[k].off
    {
      Linking.OffsetsComeFrom(visits, refs, k);
      SmallAsU16(visits[k].off);
    }
  }

  /** Entry `e` of a pooled class, as the view shows it. */
  lemma EntryViewed(cls: seq<byte>, cp: CpView, e: Entry)
    requires EntryLies(cls, false, e) && e.index < |cp.tags| == |cp.offsets|
    requires cp.tags[e.index] == cls[e.at] && cp.offsets[e.index].Some? && cp.offsets[e.index].value < 0x1_0000
    requires if cls[e.at] == 1 then PoolUtf8(cp.pool, cp.offsets[e.index].value).Some?
             else cp.offsets[e.index].value == e.at + 1
    ensures var c := ConstantOf(cls, cls[e.at], e.at + 1, ViewText(cp, e.index));
      && ShowsEntry(cls, cp, e.index, c)
      && if cls[e.at] == 1 then c.ConstText? && PoolHolds(cp.pool, cp.offsets[e.index].value, c.bytes) else Says(cls, e, c)
  {
    hide Sum;
    EntryWidth(cls, false, e);
    if cls[e.at] != 1 {
      EntrySays(cls, false, e, ViewText(cp, e.index));
    }
  }

  /** What the constants are, entry by entry. */
  ghost predicate SaysViewed(cls: seq<byte>, cp: CpView, entries: seq<Entry>, cs: seq<Constant>) {
    && |cs| == |cp.offsets|
    && (forall e | e in entries ::
          && e.at < |cls| && e.index < |cs| && cp.offsets[e.index].Some?
          && if cls[e.at] == 1 then cs[e.index].ConstText? && PoolHolds(cp.pool, cp.offsets[e.index].value, cs[e.index].bytes)
             else Says(cls, e, cs[e.index]) && cp.offsets[e.index].value == e.at + 1)
    && forall i | 0 <= i < |cs| && (forall e | e in entries :: e.index != i) :: cs[i] == ConstOther && cp.offsets[i] == Some(0)
  }

  lemma ViewShows(cls: seq<byte>, cp: CpView, entries: seq<Entry>, count: nat, visits: seq<Visit>)
    requires Visited(cls, entries, visits, count) && Views(visits, cp)
    requires forall e | e in entries :: EntryLies(cls, false, e)
    ensures Shows(cls, cp, ConstantsIn(cls, visits, cp))
    ensures SaysViewed(cls, cp, entries, ConstantsIn(cls, visits, cp))
  {
    hide EntryLies, ShowsEntry, Says, PoolHolds, ConstantOf, ViewText, PoolUtf8;
    var cs := ConstantsIn(cls, visits, cp);
    forall e | e in entries
      ensures e.index < |cs| && e.at < |cls| && cp.offsets[e.index].Some? && ShowsEntry(cls, cp, e.index, cs[e.index])
      ensures if cls[e.at] == 1 then cs[e.index].ConstText? && PoolHolds(cp.pool, cp.offsets[e.index].value, cs[e.index].bytes)
              else Says(cls, e, cs[e.index]) && cp.offsets[e.index].value == e.at + 1
    {
      assert visits[e.index] == Visit(e.index, cls[e.at], e.at + 1);
      EntryViewed(cls, cp, e);
    }
    forall i | 0 <= i < |cs|
      ensures ShowsEntry(cls, cp, i, cs[i])
      ensures (forall e | e in entries :: e.index != i) ==> cs[i] == ConstOther && cp.offsets[i] == Some(0)
    {
      if forall e | e in entries :: e.index != i {
        NoEntryShown(cls, cp, i, visits[i], ViewText(cp, i));
      }
    }
  }

  lemma NoEntryShown(cls: seq<byte>, cp: CpView, i: nat, v: Visit, text: seq<byte>)
    requires i < |cp.tags| == |cp.offsets| && v == Visit(i, 0, 0) && cp.tags[i] == v.tag && cp.offsets[i] == Some(v.off)
    ensures ConstantOf(cls, v.tag, v.off, text) == ConstOther && ShowsEntry(cls, cp, i, ConstOther)
  {
  }

  // ---- the theorem -------------------------------------------------------

  /** What a table must say of the entries of its class: their words, and their
      tags; index 0 and the second index of a `Long` or `Double` have none. */
  ghost predicate EntriesSay(cls: seq<byte>, entries: seq<Entry>, cs: seq<Constant>, b: Body, words: seq<u16>) {
    && (forall e | e in entries ::
          && e.at < |cls| && e.index < |cs|
          && EntryWords(cs, b, e.index, e.at + 1, words) && ClassSpec.TagByte(words, |cs|, e.index, cls[e.at]))
    && (forall i | 0 <= i < |cs| && (forall e | e in entries :: e.index != i) ::
          EntryWords(cs, b, i, 0, words) && ClassSpec.TagByte(words, |cs|, i, 0))
    && LastTagAlone(words, |cs|)
  }

  /** The class file, read by the format alone, and what its table says of it. */
  ghost predicate TableOf(env: Env, cls: seq<byte>, l: Link, entries: seq<Entry>, end: nat, cs: seq<Constant>,
                          b: Body, codes: seq<seq<Option<Code>>>)
  {
    && |cls| <= 65535 && PoolLies(cls, false, |cs|, entries, end) && end <= |cls|
    && SaysPooled(cls, l.pool, l.words, entries, |cs|, cs)
    && Linkable(env, cs, Tail(cls, end), b, codes)
    && TableSays(env, cs, Tail(cls, end), b, codes, l.words)
    && EntriesSay(cls, entries, cs, b, l.words)
  }

  /** The plan of a link, as a view of entries. */
  lemma PlanViews(env: Env, cls: seq<byte>, refs: seq<u16>, p: Linking.Plan)
    returns (entries: seq<Entry>, cs: seq<Constant>)
    requires Linking.PlanLink(cls, refs, p.view.pool) == Ok(p) && Linking.RefsNameEntries(p.view.pool, refs)
    requires DeriveTable(env, cls, p.view, p.n, p.l).outcome.Ok?
    ensures |cls| <= 65535 && |cs| == p.n.cpCount && PoolLies(cls, false, |cs|, entries, p.n.posAfterCp)
    ensures Visited(cls, entries, WalkCp(cls, Pooled).visits, |cs|)
    ensures Shows(cls, p.view, cs) && SaysViewed(cls, p.view, entries, cs)
    ensures Derives(env, cls, p.view, |cs|, p.n.posAfterCp)
    ensures Survey(cls, p.view, |cs|, p.n.posAfterCp) == Ok(p.n) && NewLayout(p.n) == Ok(p.l)
    ensures p.view.tags == Linking.VisitTags(WalkCp(cls, Pooled).visits)
  {
    hide WalkCp, Linking.ViewOffsets, Survey, NewLayout, DeriveTable, Shows, SaysViewed, EntryLies, PoolLies, Visited, Views;
    Linking.PlanCounts(cls, refs, p.view.pool);
    Linking.DerivedHasPool(env, cls, refs, p.view.pool);
    var w := WalkCp(cls, Pooled);
    Linking.WalkVisits(cls, Pooled);
    WalksExactly(cls, Pooled, p.n.cpCount, p.n.posAfterCp);
    entries :| PoolLies(cls, false, p.n.cpCount, entries, p.n.posAfterCp);
    EntriesVisited(cls, Pooled, p.n.cpCount, entries, p.n.posAfterCp);
    ViewIsOf(cls, refs, p.view.pool);
    ViewShows(cls, p.view, entries, p.n.cpCount, w.visits);
    cs := ConstantsIn(cls, w.visits, p.view);
  }

  lemma SaidInTable(cls: seq<byte>, cp: CpView, entries: seq<Entry>, cs: seq<Constant>, b: Body, words: seq<u16>, visits: seq<Visit>)
    requires Visited(cls, entries, visits, |cs|) && SaysViewed(cls, cp, entries, cs) && cp.tags == Linking.VisitTags(visits)
    requires |cp.tags| == |cs| && MembersExact.TextWords(cp, cs, words) && LastTagAlone(words, |cs|)
    requires forall i | 0 <= i < |cs| ::
      cp.offsets[i].Some? && EntryWords(cs, b, i, cp.offsets[i].value, words) && ClassSpec.TagByte(words, |cs|, i, cp.tags[i])
    ensures SaysPooled(cls, cp.pool, words, entries, |cs|, cs) && EntriesSay(cls, entries, cs, b, words)
  {
    hide PoolHolds, MrefRecord, ClassSpec.TagByte, Says, MethodsAmong, StringsAmong, MrefsAt, StringsAt, MembersExact.TextWords;
    forall e | e in entries
      ensures && e.at < |cls| && e.index < |cs| && 26 + e.index < |words|
              && (if cls[e.at] == 1 then cs[e.index].ConstText? && PoolHolds(cp.pool, words[26 + e.index], cs[e.index].bytes)
                  else Says(cls, e, cs[e.index]))
              && EntryWords(cs, b, e.index, e.at + 1, words) && ClassSpec.TagByte(words, |cs|, e.index, cls[e.at])
    {
      assert visits[e.index] == Visit(e.index, cls[e.at], e.at + 1);
      assert cp.tags[e.index] == cls[e.at];
      assert EntryWords(cs, b, e.index, cp.offsets[e.index].value, words);
      TextAlike(cp, cs, words, e.index);
    }
    forall i | 0 <= i < |cs| && (forall e | e in entries :: e.index != i)
      ensures EntryWords(cs, b, i, 0, words) && ClassSpec.TagByte(words, |cs|, i, 0)
    {
      assert visits[i] == Visit(i, 0, 0);
      assert EntryWords(cs, b, i, cp.offsets[i].value, words);
    }
  }

  lemma TextAlike(cp: CpView, cs: seq<Constant>, words: seq<u16>, i: nat)
    requires MembersExact.TextWords(cp, cs, words) && i < |cs|
    ensures |cp.offsets| == |cs| && (cs[i].ConstText? ==> 26 + i < |words| && cp.offsets[i] == Some(words[26 + i]))
  {
  }

  lemma EndInside(t: Tail, b: Body)
    requires MembersPart(t, b)
    ensures t.base <= |t.file|
  {
    hide MemberTable;
  }

  /** A table that holds what its class derives to, for refs that name pool
      entries, says what the class file says. */
  lemma HeldSaysTheClass(env: Env, cls: seq<byte>, refs: seq<u16>, p: Linking.Plan, words: seq<u16>)
    returns (entries: seq<Entry>, end: nat, cs: seq<Constant>, b: Body, codes: seq<seq<Option<Code>>>)
    requires Linking.PlanLink(cls, refs, p.view.pool) == Ok(p) && Linking.RefsNameEntries(p.view.pool, refs)
    requires Linking.Holds(env, cls, p, words)
    ensures TableOf(env, cls, Link(words, p.view.pool), entries, end, cs, b, codes)
  {
    hide WalkCp, Linking.PlanLink, Survey, NewLayout, DeriveTable, Shows, SaysViewed, EntryLies, PoolLies, Visited, Derives, Linkable,
         SaysPooled, TableSays, EntriesSay, EntryWords, ClassSpec.TagByte, LayoutOf, CountsOf, TableEnd, Sinks.Agrees,
         DeriveFacts.Prepared;
    end := p.n.posAfterCp;
    entries, cs := PlanViews(env, cls, refs, p);
    var t := Tail(cls, end);
    b, codes := DerivesLinkable(env, p.view, cs, t);
    LayoutIs(p.view, cs, t, b);
    LayoutNamed(cs, b, p.l);
    LinkableEnds(env, cs, t, b, codes);
    TableHeld(env, p.view, cs, t, b, codes, p.n, p.l, words);
    SaidInTable(cls, p.view, entries, cs, b, words, WalkCp(cls, Pooled).visits);
  }

  lemma LayoutNamed(cs: seq<Constant>, b: Body, l: Layout)
    requires l == Layout(FieldsAt(cs), StaticsAt(cs, b), IfacesAt(cs, b), MethodsAt(cs, b), MrefsAt(cs, b),
                         StringsAt(cs, b), TableEnd(cs, b) + TableEnd(cs, b) % 2)
    ensures l == LayoutOf(cs, b)
  {
  }

  lemma LinkableEnds(env: Env, cs: seq<Constant>, t: Tail, b: Body, codes: seq<seq<Option<Code>>>)
    requires Linkable(env, cs, t, b, codes)
    ensures t.base <= |t.file| && TableEnd(cs, b) + TableEnd(cs, b) % 2 <= 65535
  {
    hide MembersPart, AttrTable, ConstantLinks, NamesClass, FieldsLink, MethodLinks, AttrLinks, TableEnd;
    EndInside(t, b);
  }

  /** The main theorem: a link table that the validator accepts says of its
      class file what the class file format says of it, word by word. */
  lemma AcceptedSaysTheClass(env: Env, l: Link, cls: seq<byte>)
    returns (entries: seq<Entry>, end: nat, cs: seq<Constant>, b: Body, codes: seq<seq<Option<Code>>>)
    requires Valid(l) && Linking.ValidateLink(env, l, cls).Ok?
    ensures TableOf(env, cls, l, entries, end, cs, b, codes)
  {
    hide Linking.Holds, Linking.PlanLink, TableOf;
    var refs, p := Linking.AcceptedHolds(env, l, cls);
    PlanPool(cls, refs, l.pool, p);
    entries, end, cs, b, codes := HeldSaysTheClass(env, cls, refs, p, l.words);
  }

  lemma PlanPool(cls: seq<byte>, refs: seq<u16>, pool: seq<byte>, p: Linking.Plan)
    requires Linking.PlanLink(cls, refs, pool) == Ok(p)
    ensures p.view.pool == pool
  {
  }
}
