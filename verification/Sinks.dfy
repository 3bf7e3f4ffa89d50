/** What the two sinks of a derivation make of the words put: the builder's
    writes them (`VecSink`), the validator's compares them (`CheckSink`). */
module Sinks {
  import opened Bytes
  import opened ClassFile
  import opened Coverage

  /** `VecSink::put`, and `put_external`, which writes the placeholder. */
  function WritePut(table: seq<u16>, p: Put): Result<seq<u16>> {
    if p.word < |table| then Ok(table[p.word := p.value]) else Err(Internal)
  }

  function WritePuts(table: seq<u16>, puts: seq<Put>): Result<seq<u16>>
    decreases |puts|
  {
    if puts == [] then Ok(table)
    else
      var t :- WritePut(table, puts[0]);
      WritePuts(t, puts[1..])
  }

  /** A run of the builder's sink: the first refused put, or the derivation's outcome. */
  function WriteRun<T>(table: seq<u16>, d: Derived<T>): Result<seq<u16>> {
    var t :- WritePuts(table, d.puts);
    match d.outcome
    case Err(e) => Err(e)
    case Ok(_) => Ok(t)
  }

  /** `CheckSink::put` and `put_external`. */
  function CheckPut(words: seq<u16>, p: Put): Result<()> {
    if p.word >= |words| then Err(BadOffset(AsU16(p.word)))
    else if p.Put? && words[p.word] != p.value then Err(WordMismatch(AsU16(p.word)))
    else Ok(())
  }

  function CheckPuts(words: seq<u16>, puts: seq<Put>): Result<()> {
    if puts == [] then Ok(())
    else
      var _ :- CheckPut(words, puts[0]);
      CheckPuts(words, puts[1..])
  }

  function CheckRun<T>(words: seq<u16>, d: Derived<T>): Result<T> {
    var _ :- CheckPuts(words, d.puts);
    d.outcome
  }

  /** Every word put lies in the table and, unless external, holds its value. */
  ghost predicate Agrees(words: seq<u16>, puts: seq<Put>) {
    forall k | 0 <= k < |puts| ::
      puts[k].word < |words| && (puts[k].Put? ==> words[puts[k].word] == puts[k].value)
  }

  lemma {:induction false} CheckMeansAgree(words: seq<u16>, puts: seq<Put>)
    ensures CheckPuts(words, puts).Ok? <==> Agrees(words, puts)
    ensures CheckPuts(words, puts).Err? ==> CheckPuts(words, puts).error != Internal
    decreases |puts|
  {
    if puts != [] {
      CheckMeansAgree(words, puts[1..]);
      if CheckPut(words, puts[0]).Ok? && Agrees(words, puts[1..]) {
        forall k | 0 <= k < |puts|
          ensures puts[k].word < |words| && (puts[k].Put? ==> words[puts[k].word] == puts[k].value)
        {
          if k > 0 {
            assert puts[1..][k - 1] == puts[k];
          }
        }
      }
      if Agrees(words, puts) {
        forall k | 0 <= k < |puts[1..]|
          ensures puts[1..][k].word < |words| && (puts[1..][k].Put? ==> words[puts[1..][k].word] == puts[1..][k].value)
        {
          assert puts[1..][k] == puts[k + 1];
        }
      }
    }
  }

  lemma AgreesConcat(words: seq<u16>, a: seq<Put>, b: seq<Put>)
    ensures Agrees(words, a + b) <==> Agrees(words, a) && Agrees(words, b)
  {
    if Agrees(words, a + b) {
      forall k | 0 <= k < |a|
        ensures a[k].word < |words| && (a[k].Put? ==> words[a[k].word] == a[k].value)
      {
        assert (a + b)[k] == a[k];
      }
      forall k | 0 <= k < |b|
        ensures b[k].word < |words| && (b[k].Put? ==> words[b[k].word] == b[k].value)
      {
        assert (a + b)[|a| + k] == b[k];
      }
    }
  }

  lemma TailPutsWord(puts: seq<Put>, w: nat)
    requires puts != []
    ensures PutsWord(puts[1..], w) ==> PutsWord(puts, w)
  {
    if k :| 0 <= k < |puts[1..]| && puts[1..][k].word == w {
      assert puts[k + 1].word == w;
    }
  }

  /** Writing words that never repeat leaves every one of them in place. */
  lemma {:induction false} WritesStay(table: seq<u16>, puts: seq<Put>)
    requires forall k | 0 <= k < |puts| :: puts[k].word < |table|
    ensures WritePuts(table, puts).Ok? && |WritePuts(table, puts).value| == |table|
    ensures (forall j, k | 0 <= j < k < |puts| :: puts[j].word != puts[k].word) ==>
      var t := WritePuts(table, puts).value;
      && (forall k | 0 <= k < |puts| :: t[puts[k].word] == puts[k].value)
      && forall w | 0 <= w < |table| && !PutsWord(puts, w) :: t[w] == table[w]
    decreases |puts|
  {
    if puts != [] {
      var t1 := WritePut(table, puts[0]).value;
      WritesStay(t1, puts[1..]);
      var t := WritePuts(table, puts).value;
      if forall j, k | 0 <= j < k < |puts| :: puts[j].word != puts[k].word {
        assert !PutsWord(puts[1..], puts[0].word);
        forall k | 0 <= k < |puts|
          ensures t[puts[k].word] == puts[k].value
        {
          if k > 0 {
            assert puts[1..][k - 1] == puts[k];
          }
        }
        forall w | 0 <= w < |table| && !PutsWord(puts, w)
          ensures t[w] == table[w]
        {
          assert puts[0].word != w;
          TailPutsWord(puts, w);
        }
      }
    }
  }

  lemma {:induction false} WritesFail(table: seq<u16>, puts: seq<Put>)
    ensures WritePuts(table, puts).Err? ==> WritePuts(table, puts).error == Internal
    ensures WritePuts(table, puts).Err? ==> exists k :: 0 <= k < |puts| && puts[k].word >= |table|
    decreases |puts|
  {
    if puts != [] && puts[0].word < |table| {
      var t := WritePut(table, puts[0]).value;
      WritesFail(t, puts[1..]);
      if WritePuts(t, puts[1..]).Err? {
        var k :| 0 <= k < |puts[1..]| && puts[1..][k].word >= |t|;
        assert puts[k + 1].word >= |table|;
      }
    }
  }
}
