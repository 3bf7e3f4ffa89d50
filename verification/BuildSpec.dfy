/** Which sets of class files build, said of the files alone: each read by the
    class file format, and what must hold between them. */
module BuildSpec {
  import opened Bytes
  import opened ClassGrammar
  import opened ClassSpec

  /** One class file as the format reads it. */
  datatype Reading = Reading(
    entries: seq<Entry>, end: nat, cs: seq<Constant>, body: Body, codes: seq<seq<Option<Code>>>)

  ghost predicate ReadsAs(env: Env, cls: seq<byte>, r: Reading) {
    && |cls| <= 65535
    && PoolLies(cls, true, |r.cs|, r.entries, r.end) && SaysAll(cls, r.entries, |r.cs|, r.cs)
    && Linkable(env, r.cs, Tail(cls, r.end), r.body, r.codes)
  }

  /** The text of a `Class` constant's name. */
  function ClassText(cs: seq<Constant>, i: nat): Option<seq<byte>> {
    if i < |cs| && cs[i].ConstClass? then TextOf(cs, cs[i].name) else None
  }

  function NameIn(r: Reading): Option<seq<byte>> { ClassText(r.cs, r.body.thisClass) }

  function SuperIn(r: Reading): Option<seq<byte>> {
    if r.body.superClass == 0 then None else ClassText(r.cs, r.body.superClass)
  }

  ghost predicate HasText(cs: seq<Constant>, s: seq<byte>) { ConstText(s) in cs }

  /** Some `String` constant is `s`. */
  ghost predicate HasLiteral(cs: seq<Constant>, s: seq<byte>) {
    exists k :: 0 <= k < |cs| && cs[k].ConstString? && TextOf(cs, cs[k].text) == Some(s)
  }

  ghost predicate Distinct<T>(s: seq<T>) { forall i, j | 0 <= i < j < |s| :: s[i] != s[j] }

  /** The bytes the strings take in the pool: two for the length, up to three of
      padding. */
  function PoolSize(strings: seq<seq<byte>>): nat {
    if strings == [] then 0 else (2 + |strings[0]| + 3) / 4 * 4 + PoolSize(strings[1..])
  }

  /** The empty string and every `Utf8` of the set, each once, fit what 16-bit
      refs to units of four bytes reach. */
  ghost predicate PoolFits(rs: seq<Reading>, strings: seq<seq<byte>>) {
    && Distinct(strings) && PoolSize(strings) <= 4 * 65535
    && forall s :: s in strings <==> s == [] || exists r | r in rs :: HasText(r.cs, s)
  }

  /** The `String` constants of the set, each once. */
  ghost predicate LiteralsFit(rs: seq<Reading>, literals: seq<seq<byte>>) {
    && Distinct(literals) && |literals| <= 0x3000
    && forall s :: s in literals <==> exists r | r in rs :: HasLiteral(r.cs, s)
  }

  /** `way` goes from class `i` up from superclass to superclass. */
  ghost predicate Climbs(rs: seq<Reading>, way: seq<nat>, i: nat) {
    && |way| > 0 && way[0] == i && (forall k | 0 <= k < |way| :: way[k] < |rs|)
    && forall k | 0 <= k < |way| - 1 :: SuperIn(rs[way[k]]).Some? && SuperIn(rs[way[k]]) == NameIn(rs[way[k + 1]])
  }

  /** A way up that comes back. */
  ghost predicate Circle(rs: seq<Reading>, way: seq<nat>) { |way| >= 2 && Climbs(rs, way, way[|way| - 1]) }

  /** No two classes have names of one hash. */
  ghost predicate HashesDiffer(env: Env, rs: seq<Reading>) {
    forall i, j | 0 <= i < j < |rs| && NameIn(rs[i]).Some? && NameIn(rs[j]).Some? ::
      env.nameHash(NameIn(rs[i]).value) != env.nameHash(NameIn(rs[j]).value)
  }

  ghost predicate AsExpected(rs: seq<Reading>, expected: Option<seq<seq<byte>>>) {
    expected.Some? ==> forall i | 0 <= i < |rs| :: i < |expected.value| && NameIn(rs[i]) == Some(expected.value[i])
  }

  ghost predicate Buildable(env: Env, classes: seq<seq<byte>>, expected: Option<seq<seq<byte>>>, rs: seq<Reading>) {
    && |rs| == |classes| <= 4096
    && (forall i | 0 <= i < |classes| :: ReadsAs(env, classes[i], rs[i]))
    && (exists strings :: PoolFits(rs, strings))
    && AsExpected(rs, expected)
    && HashesDiffer(env, rs)
    && !(exists way :: Circle(rs, way))
    && exists literals :: LiteralsFit(rs, literals)
  }
}
