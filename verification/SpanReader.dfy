/** The span reader: one cursor over the bytes and one error that, once set, stays. */
module SpanReader {
  import opened Prelude
  import opened WireFormat
  import opened SpanColumns

  /** What reading `p` gives from a reader that has or has not failed yet. */
  ghost predicate Yields<T>(failedBefore: bool, p: Parsed<T>, value: T, rest: seq<Byte>, failed: bool) {
    if failedBefore || p.Bad? then failed else !failed && p == Good(value, rest)
  }

  lemma ManyZero<T>(p: Parser<T>, done: seq<T>, data: seq<Byte>)
    ensures Prepend(done, ParseMany(p, 0, data)) == Good(done, data)
  {
    assert done + [] == done;
  }

  class Reader {
    var rest: seq<Byte>
    var failed: bool

    constructor (data: seq<Byte>)
      ensures rest == data && !failed
    {
      rest, failed := data, false;
    }

    method Data(n: nat) returns (bytes: seq<Byte>)
      modifies this
      ensures Yields(old(failed), ParseFixed(n, old(rest)), bytes, rest, failed)
    {
      bytes := [];
      if failed {
        return;
      }
      if n > |rest| {
        failed := true;
        return;
      }
      bytes, rest := rest[..n], rest[n..];
    }

    method NextWord() returns (w: Word)
      modifies this
      ensures Yields(old(failed), ParseWord(old(rest)), w, rest, failed)
    {
      var bytes := Data(32);
      w := if |bytes| == 32 then bytes else Zeros(32);
    }

    method NextAccount() returns (a: Account)
      modifies this
      ensures Yields(old(failed), ParseAccount(old(rest)), a, rest, failed)
    {
      var bytes := Data(20);
      a := if |bytes| == 20 then bytes else Zeros(20);
    }

    method NextSignature() returns (s: Signature)
      modifies this
      ensures Yields(old(failed), ParseSignature(old(rest)), s, rest, failed)
    {
      hide ParseWord;
      var r := NextWord();
      var t := NextWord();
      s := Signature(r, t);
    }

    method U64() returns (n: Uint64)
      modifies this
      ensures Yields(old(failed), ParseUint64(old(rest)), n, rest, failed)
    {
      n := 0;
      if failed {
        return;
      }
      var parsed := ParseUint64(rest);
      if parsed.Bad? {
        failed := true;
        return;
      }
      n, rest := parsed.value, parsed.rest;
    }

    method Bits(n: nat) returns (flags: seq<bool>)
      modifies this
      ensures |flags| == n
      ensures Yields(old(failed), ParseBits(n, old(rest)), flags, rest, failed)
    {
      hide BitAt;
      var w := BitBytes(n);
      var bytes := Data(w);
      flags := seq(n, _ => false);
      if failed {
        return;
      }
      if exists i :: n <= i < 8 * w && BitAt(bytes, i) {
        failed := true;
        return;
      }
      flags := seq(n, i requires 0 <= i < n => BitAt(bytes, i));
    }

    method Numbers(n: nat) returns (out: seq<Uint64>)
      modifies this
      ensures |out| == n
      ensures Yields(old(failed), ParseMany(ParseUint64, n, old(rest)), out, rest, failed)
    {
      hide ParseUint64, ParseMany, Prepend;
      out := [];
      ManyStart(ParseUint64, n, rest);
      for i := 0 to n
        invariant |out| == i
        invariant Pending(old(failed), ParseMany(ParseUint64, n, old(rest)), out,
                          ParseMany(ParseUint64, n - i, rest), failed)
      {
        PrependOne(ParseUint64, out, n - i, rest);
        var x := U64();
        out := out + [x];
      }
      ManyZero(ParseUint64, out, rest);
    }

    method Extras(n: nat) returns (out: seq<seq<Byte>>)
      modifies this
      ensures |out| == n
      ensures Yields(old(failed), ParseMany(ParseExtra, n, old(rest)), out, rest, failed)
    {
      hide ParseUint64, ParseMany, Prepend;
      out := [];
      ManyStart(ParseExtra, n, rest);
      for i := 0 to n
        invariant |out| == i
        invariant Pending(old(failed), ParseMany(ParseExtra, n, old(rest)), out,
                          ParseMany(ParseExtra, n - i, rest), failed)
      {
        PrependOne(ParseExtra, out, n - i, rest);
        var size := U64();
        var extra := Data(size);
        out := out + [extra];
      }
      ManyZero(ParseExtra, out, rest);
    }

    method Signatures(n: nat) returns (out: seq<Signature>)
      modifies this
      ensures |out| == n
      ensures Yields(old(failed), ParseMany(ParseSignature, n, old(rest)), out, rest, failed)
    {
      hide ParseSignature, ParseMany, Prepend;
      out := [];
      ManyStart(ParseSignature, n, rest);
      for i := 0 to n
        invariant |out| == i
        invariant Pending(old(failed), ParseMany(ParseSignature, n, old(rest)), out,
                          ParseMany(ParseSignature, n - i, rest), failed)
      {
        PrependOne(ParseSignature, out, n - i, rest);
        var s := NextSignature();
        out := out + [s];
      }
      ManyZero(ParseSignature, out, rest);
    }

    /** One address for every flag that is `wanted`. */
    method Accounts(flags: seq<bool>, wanted: bool) returns (out: seq<Account>)
      modifies this
      ensures Yields(old(failed), ParseMany(ParseAccount, Rank(flags, wanted, |flags|), old(rest)), out, rest, failed)
    {
      hide ParseAccount, ParseMany, Prepend;
      out := [];
      var n := |flags|;
      ghost var total := Rank(flags, wanted, n);
      ManyStart(ParseAccount, total, rest);
      for i := 0 to n
        invariant |out| == Rank(flags, wanted, i) <= total
        invariant Pending(old(failed), ParseMany(ParseAccount, total, old(rest)), out,
                          ParseMany(ParseAccount, total - Rank(flags, wanted, i), rest), failed)
      {
        RankMonotone(flags, wanted, i, n);
        RankMonotone(flags, wanted, i + 1, n);
        if flags[i] == wanted {
          PrependOne(ParseAccount, out, total - Rank(flags, wanted, i), rest);
          var a := NextAccount();
          out := out + [a];
        }
      }
      ManyZero(ParseAccount, out, rest);
    }

    method RawTx(item: ItemSize) returns (payload: seq<Byte>)
      modifies this
      ensures Yields(old(failed), ParseRaw(item, old(rest)), payload, rest, failed)
    {
      payload := [];
      if failed {
        return;
      }
      if rest == [] {
        failed := true;
        return;
      }
      var head: seq<Byte> := [];
      if rest[0] <= 0x7f {
        head, rest := [rest[0]], rest[1..];
        if head[0] != 1 && head[0] != 2 {
          failed := true;
          return;
        }
      }
      var size := item(rest);
      if size.None? || size.value == 0 || size.value > |rest| {
        failed := true;
        return;
      }
      assert head == [] ==> head + rest[..size.value] == rest[..size.value];
      payload, rest := head + rest[..size.value], rest[size.value..];
    }

    /** The payloads, and how many of them are legacy ones. */
    method Payloads(item: ItemSize, n: nat) returns (out: seq<seq<Byte>>, legacy: nat)
      modifies this
      ensures |out| == n && legacy == Rank(Legacy(out), true, n)
      ensures Yields(old(failed), ParseMany(PayloadParser(item), n, old(rest)), out, rest, failed)
    {
      hide ParseRaw, ParseMany, Prepend, Rank, Legacy;
      out, legacy := [], 0;
      ManyStart(PayloadParser(item), n, rest);
      LegacyNone();
      for i := 0 to n
        invariant |out| == i && legacy == Rank(Legacy(out), true, i)
        invariant Pending(old(failed), ParseMany(PayloadParser(item), n, old(rest)), out,
                          ParseMany(PayloadParser(item), n - i, rest), failed)
      {
        PrependOne(PayloadParser(item), out, n - i, rest);
        var p := RawTx(item);
        LegacySnoc(out, p);
        out := out + [p];
        if |p| > 0 && p[0] > 0x7f {
          legacy := legacy + 1;
        }
      }
      ManyZero(PayloadParser(item), out, rest);
    }

    /** The transaction columns in wire order. */
    method ReadTransactions(item: ItemSize, n: nat) returns (f: TxColumns)
      modifies this
      ensures Yields(old(failed), ParseTransactions(item, n, old(rest)), f, rest, failed)
    {
      hide ParseBits, ParseMany, ParseRaw, ParseUint64, ParseSignature, ParseAccount, Rank, Legacy;
      var creation := Bits(n);
      var parity := Bits(n);
      var sigs := Signatures(n);
      var tos := Accounts(creation, false);
      var payloads, legacy := Payloads(item, n);
      var nonces := Numbers(n);
      var gases := Numbers(n);
      var protected := Bits(legacy);
      var queue := Bits(n);
      var seqParity := Bits(n);
      var seqSigs := Signatures(n);
      var origins := Accounts(queue, true);
      f := TxColumns(creation, parity, sigs, tos, payloads, nonces, gases, protected, queue, seqParity, seqSigs,
                     origins);
    }
  }

  /** Reading element by element: what is read, completed by what remains, is still what the whole gives. */
  ghost predicate Pending<T>(failedBefore: bool, whole: Parsed<seq<T>>, done: seq<T>, more: Parsed<seq<T>>,
                             failed: bool)
  {
    if failed then failedBefore || whole.Bad? else !failedBefore && whole == Prepend(done, more)
  }

  lemma ManyStart<T>(p: Parser<T>, n: nat, data: seq<Byte>)
    ensures Prepend([], ParseMany(p, n, data)) == ParseMany(p, n, data)
  {
    var whole := ParseMany(p, n, data);
    assert whole.Good? ==> [] + whole.value == whole.value;
  }

  lemma LegacyNone()
    ensures Rank(Legacy([]), true, 0) == 0
  {
  }

  lemma LegacySnoc(payloads: seq<seq<Byte>>, p: seq<Byte>)
    ensures Rank(Legacy(payloads + [p]), true, |payloads| + 1)
            == Rank(Legacy(payloads), true, |payloads|) + if IsLegacy(p) then 1 else 0
  {
    RankLocal(Legacy(payloads), Legacy(payloads + [p]), true, |payloads|);
  }

  /** The head of `decodeSpan`: columns, or None for any refusal. */
  method ReadSpan(item: ItemSize, data: seq<Byte>) returns (c: Option<Columns>)
    ensures c == if ParseSpan(item, data).Good? then Some(ParseSpan(item, data).value) else None
  {
    hide ParseBits, ParseMany, ParseUint64, ParseExtra, ParseTransactions, Sum;
    var r := new Reader(data);
    var start := r.U64();
    var anchor := r.Data(ANCHOR_BYTES);
    var count := r.U64();
    if r.failed {
      return None;
    }
    if HeadRefused(start, count, |r.rest|) {
      return None;
    }
    var marks := r.Bits(count);
    var origins := r.Numbers(count);
    var times := r.Numbers(count);
    var counts := r.Numbers(count);
    var total := CheckedTotal(counts);
    if total.None? {
      return None;
    }
    var extras := r.Extras(count);
    if r.failed {
      return None;
    }
    if total.value > |r.rest| / 128 {
      return None;
    }
    var fields := r.ReadTransactions(item, total.value);
    if r.failed || |r.rest| != 0 {
      return None;
    }
    c := Some(Columns(start, anchor, marks, origins, times, counts, extras, fields));
  }

  /** The running total never passes the limit before it is compared with it. */
  method CheckedTotal(counts: seq<Uint64>) returns (total: Option<nat>)
    ensures total == if Sum(counts) > MAX_ELEMENTS then None else Some(Sum(counts))
  {
    var sum: nat := 0;
    assert counts[..|counts|] == counts;
    for i := 0 to |counts|
      invariant sum == Sum(counts[..i]) <= MAX_ELEMENTS
    {
      assert counts[..i + 1] == counts[..i] + [counts[i]];
      SumSnoc(counts[..i], counts[i]);
      SumPrefix(counts, i + 1);
      if counts[i] > MAX_ELEMENTS - sum {
        return None;
      }
      sum := sum + counts[i];
    }
    total := Some(sum);
  }
}
