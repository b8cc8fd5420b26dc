/**
 The key/value CSV format: write_int_pairs writes one `key,value` line per
 pair, read_int_pairs reads such lines back with `fscanf("%d,%d")` and
 `fgetc`. The stream is modelled as the text it holds (reading) or the text
 written to it (writing).
 */
module Pairs {
  import opened Options
  import opened Decimal

  /** int_key_value */
  datatype IntKeyValue = IntKeyValue(key: int, value: int)

  /** The line write_int_pairs writes for one pair. */
  function PairLine(p: IntKeyValue): string
  {
    IntToString(p.key) + "," + IntToString(p.value) + "\n"
  }

  /** Everything write_int_pairs writes for `ps`: their lines, in order. */
  function PairsText(ps: seq<IntKeyValue>): string
  {
    if ps == [] then [] else PairLine(ps[0]) + PairsText(ps[1..])
  }

  lemma {:induction false} PairsTextAppend(ps: seq<IntKeyValue>, p: IntKeyValue)
    ensures PairsText(ps + [p]) == PairsText(ps) + PairLine(p)
  {
    if ps == [] {
      assert ps + [p] == [p];
      assert PairsText([p]) == PairLine(p) + PairsText([]);
    } else {
      assert (ps + [p])[1..] == ps[1..] + [p];
      PairsTextAppend(ps[1..], p);
    }
  }

  /**
   write_int_pairs: the first `npairs` pairs of the array, each written as its
   key, a comma, its value and a newline.
   */
  method WriteIntPairs(pairs: array<IntKeyValue>, npairs: int) returns (out: string)
    requires npairs <= pairs.Length
    ensures out == PairsText(pairs[..if npairs < 0 then 0 else npairs])
  {
    out := [];
    var i := 0;
    while i < npairs
      invariant 0 <= i <= pairs.Length && (npairs >= 0 ==> i <= npairs) && (npairs < 0 ==> i == 0)
      invariant out == PairsText(pairs[..i])
    {
      ghost var before := out;
      var p := pairs[i];
      out := out + IntToString(p.key);
      out := out + [','];
      out := out + IntToString(p.value);
      out := out + ['\n'];
      assert out == before + PairLine(p);
      PairsTextAppend(pairs[..i], p);
      assert pairs[..i + 1] == pairs[..i] + [p];
      i := i + 1;
    }
    assert i == (if npairs < 0 then 0 else npairs);
  }

  /** What `fscanf(f, "%d,%d", &k, &v)` did: the ints it stored and where it stopped reading. */
  datatype PairScan = PairScan(key: Option<int>, value: Option<int>, next: nat)

  /**
   `fscanf(f, "%d,%d", &k, &v)` reading `t` from `i`: a `%d`, then a comma
   that must come at once (a literal is not preceded by white-space skipping),
   then a second `%d`. The first directive that fails ends the call; what it
   had read stays consumed, and an unmatched comma stays unread.
   */
  function ScanPair(t: string, i: nat): (r: PairScan)
    requires i <= |t|
    ensures i <= r.next <= |t|
    ensures r.key.None? ==> r.value.None?
  {
    var k := ScanInt(t, i);
    if k.value.None? then
      PairScan(None, None, k.next)
    else if k.next < |t| && t[k.next] == ',' then
      var v := ScanInt(t, k.next + 1);
      PairScan(k.value, v.value, v.next)
    else
      PairScan(k.value, None, k.next)
  }

  /**
   read_int_pairs from position `i` on, `acc` being the pairs stored so far.
   End of input after a scan stops the loop and drops whatever that scan
   read; any char other than a newline there is a failure; a newline stores
   the pair, which must have both its ints (ReadFromAsWritten is the loop as
   written, which does not check that).
   */
  function ReadFrom(t: string, i: nat, acc: seq<IntKeyValue>): (r: Option<seq<IntKeyValue>>)
    requires i <= |t|
    decreases |t| - i
  {
    var sc := ScanPair(t, i);
    if sc.next == |t| then Some(acc)
    else if t[sc.next] != '\n' then None
    else if sc.key.None? || sc.value.None? then None
    else ReadFrom(t, sc.next + 1, acc + [IntKeyValue(sc.key.value, sc.value.value)])
  }

  /** The pairs read_int_pairs returns for `input`, or None where it returns -1. */
  function ReadPairs(input: string): Option<seq<IntKeyValue>>
  {
    ReadFrom(input, 0, [])
  }

  /** Reading from `i` with `acc` stored comes to the same end as reading from `j` with `acc2` stored. */
  predicate SameRead(t: string, i: nat, acc: seq<IntKeyValue>, j: nat, acc2: seq<IntKeyValue>)
    requires i <= |t| && j <= |t|
  {
    ReadFrom(t, i, acc) == ReadFrom(t, j, acc2)
  }

  /**
   read_int_pairs: `nline` is -1 on malformed input, otherwise the number of
   pairs read, which are returned in input order.
   */
  method ReadIntPairs(input: string) returns (nline: int, pairs: seq<IntKeyValue>)
    ensures nline == -1 <==> ReadPairs(input).None?
    ensures nline >= 0 ==> nline == |pairs| && ReadPairs(input) == Some(pairs)
  {
    nline := 0;
    pairs := [];
    var pos := 0;
    while true
      invariant 0 <= pos <= |input|
      invariant nline == |pairs|
      invariant ReadFrom(input, pos, pairs) == ReadPairs(input)
      decreases |input| - pos
    {
      var sc := ScanPair(input, pos);
      if sc.next == |input| {
        return;
      }
      if input[sc.next] != '\n' || sc.key.None? || sc.value.None? {
        nline, pairs := -1, [];
        return;
      }
      pairs := pairs + [IntKeyValue(sc.key.value, sc.value.value)];
      nline := nline + 1;
      pos := sc.next + 1;
    }
  }

  /** A key, a comma and a value, followed by anything but a digit, scan as that pair. */
  lemma {:induction false} ScanPairOfPair(t: string, i: nat, p: IntKeyValue)
    requires At(t, i, IntToString(p.key) + "," + IntToString(p.value))
    requires EndsNumber(t, i + |IntToString(p.key)| + 1 + |IntToString(p.value)|)
    ensures ScanPair(t, i)
         == PairScan(Some(p.key), Some(p.value), i + |IntToString(p.key)| + 1 + |IntToString(p.value)|)
  {
    var ks, vs := IntToString(p.key), IntToString(p.value);
    var j := i + |ks|;
    AtAppend(t, i, ks + ",", vs);
    AtAppend(t, i, ks, ",");
    assert t[j] == ',';
    ScanIntOfDecimal(t, i, p.key);
    ScanIntOfDecimal(t, j + 1, p.value);
  }

  /** Reading a written line stores its pair and goes on after its newline. */
  lemma {:induction false} ReadFromLine(t: string, i: nat, p: IntKeyValue, acc: seq<IntKeyValue>)
    requires At(t, i, PairLine(p))
    ensures i + |PairLine(p)| <= |t| && SameRead(t, i, acc, i + |PairLine(p)|, acc + [p])
  {
    var pair := IntToString(p.key) + "," + IntToString(p.value);
    var n := i + |pair|;
    AtAppend(t, i, pair, "\n");
    ScanPairOfPair(t, i, p);
    var sc := ScanPair(t, i);
    assert sc == PairScan(Some(p.key), Some(p.value), n);
    assert n < |t| && t[n] == '\n';
    assert IntKeyValue(p.key, p.value) == p;
    assert i + |PairLine(p)| == n + 1;
  }

  /** The lines of `ps`, one after another, stand in `t` from position `i` up to position `k`. */
  predicate WrittenAt(t: string, i: nat, ps: seq<IntKeyValue>, k: nat)
    decreases |ps|
  {
    if ps == [] then i == k else At(t, i, PairLine(ps[0])) && WrittenAt(t, i + |PairLine(ps[0])|, ps[1..], k)
  }

  lemma {:induction false} WrittenAtOfText(t: string, i: nat, ps: seq<IntKeyValue>)
    requires At(t, i, PairsText(ps))
    ensures WrittenAt(t, i, ps, i + |PairsText(ps)|)
    decreases |ps|
  {
    if ps != [] {
      assert PairsText(ps) == PairLine(ps[0]) + PairsText(ps[1..]);
      AtAppend(t, i, PairLine(ps[0]), PairsText(ps[1..]));
      WrittenAtOfText(t, i + |PairLine(ps[0])|, ps[1..]);
    }
  }

  /** The first of several written lines stands at `i`; the others follow it. */
  lemma {:induction false} WrittenAtFirst(t: string, i: nat, p: IntKeyValue, ps: seq<IntKeyValue>, k: nat)
    requires WrittenAt(t, i, ps, k) && ps != [] && p == ps[0]
    ensures At(t, i, PairLine(p)) && WrittenAt(t, i + |PairLine(p)|, ps[1..], k)
  {
  }

  lemma {:induction false} SameReadChain(t: string, i: nat, j: nat, k: nat, p: IntKeyValue, ps: seq<IntKeyValue>, acc: seq<IntKeyValue>)
    requires i <= |t| && j <= |t| && k <= |t| && ps != [] && p == ps[0]
    requires SameRead(t, i, acc, j, acc + [p])
    requires SameRead(t, j, acc + [p], k, acc + [p] + ps[1..])
    ensures SameRead(t, i, acc, k, acc + ps)
  {
    assert acc + [p] + ps[1..] == acc + ps;
  }

  /** Reading text that holds written lines from `i` to `k` stores their pairs and goes on at `k`. */
  lemma {:induction false} ReadFromWritten(t: string, i: nat, ps: seq<IntKeyValue>, k: nat, acc: seq<IntKeyValue>)
    requires WrittenAt(t, i, ps, k) && k <= |t|
    ensures i <= |t| && SameRead(t, i, acc, k, acc + ps)
    decreases |ps|
  {
    if ps == [] {
      assert acc + ps == acc;
    } else {
      var p := ps[0];
      var j := i + |PairLine(p)|;
      WrittenAtFirst(t, i, p, ps, k);
      ReadFromLine(t, i, p, acc);
      ReadFromWritten(t, j, ps[1..], k, acc + [p]);
      SameReadChain(t, i, j, k, p, ps, acc);
    }
  }

  /** Text that a stream holds from its start. */
  lemma AtStart(t: string)
    ensures At(t, 0, t)
  {
    AtSuffix(t, 0);
    assert t[0..] == t;
  }

  /** Input that begins with written lines yields their pairs, then reading goes on after them. */
  lemma {:induction false} ReadPairsAfterWritten(t: string, ps: seq<IntKeyValue>)
    requires At(t, 0, PairsText(ps))
    ensures ReadPairs(t) == ReadFrom(t, |PairsText(ps)|, ps)
  {
    WrittenAtOfText(t, 0, ps);
    ReadFromWritten(t, 0, ps, 0 + |PairsText(ps)|, []);
    assert [] + ps == ps;
  }

  /** A scan that runs to the end of the input ends the reading with the pairs stored so far. */
  lemma {:induction false} ReadFromAtEnd(t: string, i: nat, acc: seq<IntKeyValue>)
    requires i <= |t| && ScanPair(t, i).next == |t|
    ensures ReadFrom(t, i, acc) == Some(acc)
  {
  }

  /** Round trip: reading what write_int_pairs wrote gives back the same pairs, in order. */
  lemma {:induction false} ReadWrittenPairs(ps: seq<IntKeyValue>)
    ensures ReadPairs(PairsText(ps)) == Some(ps)
  {
    var t := PairsText(ps);
    AtStart(t);
    ReadPairsAfterWritten(t, ps);
    ReadFromAtEnd(t, |t|, ps);
  }

  /** A last pair that is not followed by a newline is not stored. */
  lemma {:induction false} UnterminatedLastPairDropped(ps: seq<IntKeyValue>, p: IntKeyValue)
    ensures ReadPairs(PairsText(ps) + (IntToString(p.key) + "," + IntToString(p.value))) == Some(ps)
  {
    var last := IntToString(p.key) + "," + IntToString(p.value);
    var t := PairsText(ps) + last;
    var n := |PairsText(ps)|;
    assert At(t, 0, PairsText(ps)) && At(t, n, last) by {
      AtStart(t);
      AtAppend(t, 0, PairsText(ps), last);
    }
    ReadPairsAfterWritten(t, ps);
    ScanPairOfPair(t, n, p);
    ReadFromAtEnd(t, n, ps);
  }

  /** A pair followed by anything but a newline or a digit makes the whole read fail. */
  lemma {:induction false} RejectsCharAfterPair(ps: seq<IntKeyValue>, p: IntKeyValue, c: char, rest: string)
    requires c != '\n' && !IsDigit(c)
    ensures ReadPairs(PairsText(ps) + (IntToString(p.key) + "," + IntToString(p.value)) + [c] + rest) == None
  {
    var last := IntToString(p.key) + "," + IntToString(p.value);
    var t := PairsText(ps) + last + [c] + rest;
    var n := |PairsText(ps)|;
    assert At(t, 0, PairsText(ps)) && At(t, n, last) && t[n + |last|] == c by {
      AtStart(t);
      assert t == PairsText(ps) + (last + ([c] + rest));
      AtAppend(t, 0, PairsText(ps), last + ([c] + rest));
      AtAppend(t, n, last, [c] + rest);
    }
    ReadPairsAfterWritten(t, ps);
    ScanPairOfPair(t, n, p);
  }

  /** A line with a key and no value, or no ints at all, makes the whole read fail. */
  lemma {:induction false} RejectsKeyOnlyLine(ps: seq<IntKeyValue>, x: int, rest: string)
    ensures ReadPairs(PairsText(ps) + IntToString(x) + "\n" + rest) == None
  {
    var key := IntToString(x);
    var t := PairsText(ps) + key + "\n" + rest;
    var n := |PairsText(ps)|;
    assert At(t, 0, PairsText(ps)) && At(t, n, key) && t[n + |key|] == '\n' by {
      AtStart(t);
      assert t == PairsText(ps) + (key + ("\n" + rest));
      AtAppend(t, 0, PairsText(ps), key + ("\n" + rest));
      AtAppend(t, n, key, "\n" + rest);
    }
    ReadPairsAfterWritten(t, ps);
    ScanIntOfDecimal(t, n, x);
  }

  /**
   The loop of read_int_pairs as written: `k` and `v` are the variables the
   scans store into. A `%d` that fails leaves its variable as it was, and the
   loop stores the pair on every newline whether or not both ints were read.
   */
  function ReadFromAsWritten(t: string, i: nat, k: int, v: int, acc: seq<IntKeyValue>): (r: Option<seq<IntKeyValue>>)
    requires i <= |t|
    ensures r.Some? ==> acc <= r.value && |r.value| - |acc| <= |t| - i
    decreases |t| - i
  {
    var sc := ScanPair(t, i);
    var k' := if sc.key.Some? then sc.key.value else k;
    var v' := if sc.value.Some? then sc.value.value else v;
    if sc.next == |t| then Some(acc)
    else if t[sc.next] != '\n' then None
    else ReadFromAsWritten(t, sc.next + 1, k', v', acc + [IntKeyValue(k', v')])
  }

  /** read_int_pairs as written, `k0` and `v0` standing for the indeterminate initial values of `k` and `v`. */
  function ReadPairsAsWritten(input: string, k0: int, v0: int): (r: Option<seq<IntKeyValue>>)
    ensures r.Some? ==> |r.value| <= |input|
  {
    ReadFromAsWritten(input, 0, k0, v0, [])
  }

  /** Wherever the checked reading succeeds, the loop as written reads the same pairs. */
  lemma {:induction false} AsWrittenAgrees(t: string, i: nat, k: int, v: int, acc: seq<IntKeyValue>)
    requires i <= |t| && ReadFrom(t, i, acc).Some?
    ensures ReadFromAsWritten(t, i, k, v, acc) == ReadFrom(t, i, acc)
    decreases |t| - i
  {
    var sc := ScanPair(t, i);
    if sc.next < |t| {
      AsWrittenAgrees(t, sc.next + 1, sc.key.value, sc.value.value, acc + [IntKeyValue(sc.key.value, sc.value.value)]);
    }
  }

  /** The loop as written also reads back what write_int_pairs wrote, whatever `k` and `v` start as. */
  lemma {:induction false} ReadWrittenPairsAsWritten(ps: seq<IntKeyValue>, k0: int, v0: int)
    ensures ReadPairsAsWritten(PairsText(ps), k0, v0) == Some(ps)
  {
    ReadWrittenPairs(ps);
    AsWrittenAgrees(PairsText(ps), 0, k0, v0, []);
  }

  /**
   A line holding only a key: the loop as written stores it with the value
   left over from the line before, where the checked reading fails.
   */
  lemma KeyOnlyLineCounterexample(k0: int, v0: int)
    ensures ReadPairsAsWritten("1,2\n3\n", k0, v0) == Some([IntKeyValue(1, 2), IntKeyValue(3, 2)])
    ensures ReadPairs("1,2\n3\n") == None
  {
    var t := "1,2\n3\n";
    assert ScanInt(t, 0) == IntScan(Some(1), 1);
    assert ScanInt(t, 2) == IntScan(Some(2), 3);
    assert ScanPair(t, 0) == PairScan(Some(1), Some(2), 3);
    assert ScanPair(t, 4) == PairScan(Some(3), None, 5);
    assert ScanPair(t, 6) == PairScan(None, None, 6);
    var read := [IntKeyValue(1, 2), IntKeyValue(3, 2)];
    assert ReadFromAsWritten(t, 6, 3, 2, read) == Some(read);
    assert t[5] == '\n' && [IntKeyValue(1, 2)] + [IntKeyValue(3, 2)] == read;
    assert ReadFromAsWritten(t, 4, 1, 2, [IntKeyValue(1, 2)]) == Some(read);
    assert t[3] == '\n' && [] + [IntKeyValue(1, 2)] == [IntKeyValue(1, 2)];
  }
}
