/** The byte keys of the database: why one map per key family is a faithful picture of it, and why
    the two range scans see exactly what they should. */
module Keys {
  import opened Prelude
  import opened LexOrder

  // ---------------------------------------------------------------- big-endian numbers

  function Bound(width: nat): nat { if width == 0 then 1 else 0x100 * Bound(width - 1) }

  function BigEndian(n: nat, width: nat): (bytes: seq<Byte>)
    ensures |bytes| == width
  {
    if width == 0 then [] else BigEndian(n / 0x100, width - 1) + [n % 0x100]
  }

  /** Byte order of big-endian numbers is numeric order; what follows breaks ties. */
  lemma {:induction false} BigEndianOrder(a: nat, b: nat, width: nat, x: seq<int>, y: seq<int>)
    requires a < Bound(width) && b < Bound(width)
    ensures Less(BigEndian(a, width) + x, BigEndian(b, width) + y) <==> a < b || (a == b && Less(x, y))
    ensures BigEndian(a, width) + x == BigEndian(b, width) + y <==> a == b && x == y
  {
    if width == 0 {
      assert [] + x == x && [] + y == y;
    } else {
      var p, q := BigEndian(a / 0x100, width - 1), BigEndian(b / 0x100, width - 1);
      var x', y' := [a % 0x100] + x, [b % 0x100] + y;
      assert BigEndian(a, width) + x == p + x' && BigEndian(b, width) + y == q + y';
      BigEndianOrder(a / 0x100, b / 0x100, width - 1, x', y');
      assert x'[1..] == x && y'[1..] == y;
    }
  }

  lemma Uint64Bound()
    ensures Bound(8) == MAX_UINT64 + 1
  {
    assert Bound(4) == 0x1_0000_0000;
  }

  // ---------------------------------------------------------------- the key families

  datatype Key =
    | Transaction(hash: seq<Byte>) | Channel(id: seq<Byte>)
    | Pointer(index: Uint64) | BlockAt(index: Uint64)
    | TransactionExpiry(ts: Uint64, hash: seq<Byte>) | ChannelExpiry(ts: Uint64, id: seq<Byte>)
    | BlobState | BlobIdentity
    | Deposit(index: Uint64) | DepositState | DepositIdentity

  function Ascii(c: char): Byte { c as int % 0x100 }

  function Text(s: string): (bytes: seq<Byte>)
    ensures |bytes| == |s| && forall i :: 0 <= i < |s| ==> bytes[i] == Ascii(s[i])
  {
    if s == "" then [] else Text(s[..|s| - 1]) + [Ascii(s[|s| - 1])]
  }

  function Prefix(k: Key): string {
    match k
    case Transaction(_) => "blob/tx/"
    case Channel(_) => "blob/channel/"
    case Pointer(_) => "blob/index/"
    case BlockAt(_) => "blob/block/"
    case TransactionExpiry(_, _) => "blob/expiry/tx/"
    case ChannelExpiry(_, _) => "blob/expiry/channel/"
    case BlobState => "blob/state"
    case BlobIdentity => "blob/identity"
    case Deposit(_) => "enqueue/"
    case DepositState => "meta/state"
    case DepositIdentity => "meta/identity"
  }

  function Suffix(k: Key): seq<Byte> {
    match k
    case Transaction(h) => h
    case Channel(id) => id
    case Pointer(n) => BigEndian(n, 8)
    case BlockAt(n) => BigEndian(n, 8)
    case TransactionExpiry(ts, h) => BigEndian(ts, 8) + h
    case ChannelExpiry(ts, id) => BigEndian(ts, 8) + id
    case Deposit(n) => BigEndian(n, 8)
    case _ => []
  }

  function Bytes(k: Key): seq<Byte> { Text(Prefix(k)) + Suffix(k) }

  lemma TextAt(s: string, rest: seq<Byte>, i: nat)
    requires i < |s|
    ensures (Text(s) + rest)[i] == Ascii(s[i])
  {
  }

  ghost predicate SameFamily(k: Key, l: Key) { Prefix(k) == Prefix(l) }

  /** The letters of a prefix that tell the families apart: positions 0, 5 and 6, and for the two
      expiry families also 12. */
  function Signature(k: Key): (char, char, char, char) {
    match k
    case Transaction(_) => ('b', 't', 'x', ' ')
    case Channel(_) => ('b', 'c', 'h', ' ')
    case Pointer(_) => ('b', 'i', 'n', ' ')
    case BlockAt(_) => ('b', 'b', 'l', ' ')
    case TransactionExpiry(_, _) => ('b', 'e', 'x', 't')
    case ChannelExpiry(_, _) => ('b', 'e', 'x', 'c')
    case BlobState => ('b', 's', 't', ' ')
    case BlobIdentity => ('b', 'i', 'd', ' ')
    case Deposit(_) => ('e', 'u', 'e', ' ')
    case DepositState => ('m', 's', 't', ' ')
    case DepositIdentity => ('m', 'i', 'd', ' ')
  }

  lemma SignatureLetters(k: Key)
    ensures var p, s := Prefix(k), Signature(k);
            && |p| > 6 && p[0] == s.0 && p[5] == s.1 && p[6] == s.2
            && (s.1 == 'e' ==> |p| > 12 && p[12] == s.3)
  {
  }

  lemma SignatureTells(k: Key, l: Key)
    requires Signature(k) == Signature(l)
    ensures SameFamily(k, l)
  {
    hide Prefix;
    assert k.Transaction? <==> l.Transaction?;
    assert k.Channel? <==> l.Channel?;
    assert k.Pointer? <==> l.Pointer?;
    assert k.BlockAt? <==> l.BlockAt?;
    assert k.TransactionExpiry? <==> l.TransactionExpiry?;
    assert k.ChannelExpiry? <==> l.ChannelExpiry?;
    assert k.BlobState? <==> l.BlobState?;
    assert k.BlobIdentity? <==> l.BlobIdentity?;
    assert k.Deposit? <==> l.Deposit?;
    assert k.DepositState? <==> l.DepositState?;
    SameConstructor(k, l);
  }

  lemma SameConstructor(k: Key, l: Key)
    requires k.Transaction? <==> l.Transaction?
    requires k.Channel? <==> l.Channel?
    requires k.Pointer? <==> l.Pointer?
    requires k.BlockAt? <==> l.BlockAt?
    requires k.TransactionExpiry? <==> l.TransactionExpiry?
    requires k.ChannelExpiry? <==> l.ChannelExpiry?
    requires k.BlobState? <==> l.BlobState?
    requires k.BlobIdentity? <==> l.BlobIdentity?
    requires k.Deposit? <==> l.Deposit?
    requires k.DepositState? <==> l.DepositState?
    ensures SameFamily(k, l)
  {
  }

  lemma SameLetter(p: string, x: seq<Byte>, q: string, y: seq<Byte>, i: nat)
    requires Text(p) + x == Text(q) + y && i < |p| && i < |q|
    ensures Ascii(p[i]) == Ascii(q[i])
  {
    TextAt(p, x, i);
    TextAt(q, y, i);
  }

  /** No family's prefix starts another's key. */
  lemma PrefixFree(k: Key, l: Key, rest: seq<Byte>)
    requires Text(Prefix(k)) + rest == Bytes(l)
    ensures SameFamily(k, l)
  {
    hide Prefix, Text, Suffix;
    var p, q := Prefix(k), Prefix(l);
    SignatureLetters(k);
    SignatureLetters(l);
    SameLetter(p, rest, q, Suffix(l), 0);
    SameLetter(p, rest, q, Suffix(l), 5);
    SameLetter(p, rest, q, Suffix(l), 6);
    if Signature(k).1 == 'e' && Signature(l).1 == 'e' {
      SameLetter(p, rest, q, Suffix(l), 12);
    }
    SignatureTells(k, l);
  }

  lemma SameSuffix(k: Key, l: Key)
    requires SameFamily(k, l) && Suffix(k) == Suffix(l)
    ensures k == l
  {
    Uint64Bound();
    match k
    case TransactionExpiry(ts, h) => BigEndianOrder(ts, l.ts, 8, h, l.hash);
    case ChannelExpiry(ts, id) => BigEndianOrder(ts, l.ts, 8, id, l.id);
    case Pointer(n) => BigEndianOrder(n, l.index, 8, [], []);
    case BlockAt(n) => BigEndianOrder(n, l.index, 8, [], []);
    case Deposit(n) => BigEndianOrder(n, l.index, 8, [], []);
    case _ =>
  }

  /** Different records never share a key. */
  lemma BytesInjective(k: Key, l: Key)
    requires Bytes(k) == Bytes(l)
    ensures k == l
  {
    PrefixFree(k, l, Suffix(k));
    assert Bytes(k)[|Text(Prefix(k))|..] == Suffix(k) && Bytes(l)[|Text(Prefix(k))|..] == Suffix(l);
    SameSuffix(k, l);
  }

  // ---------------------------------------------------------------- range scans

  /** A key between a prefix and an extension of it starts with that prefix. */
  lemma {:induction false} Between(p: seq<int>, x: seq<int>, key: seq<int>)
    requires !Less(key, p) && Less(key, p + x)
    ensures |p| <= |key| && key[..|p|] == p
  {
    if p != [] {
      assert (p + x)[1..] == p[1..] + x;
      Between(p[1..], x, key[1..]);
      assert key[..|p|] == [key[0]] + key[1..][..|p| - 1];
    }
  }

  lemma NotBelowPrefix(p: seq<int>, x: seq<int>)
    ensures !Less(p + x, p)
  {
    CommonPrefix(p, x, []);
    assert p + [] == p;
  }

  ghost predicate IsExpiry(k: Key) { k.ChannelExpiry? || k.TransactionExpiry? }

  lemma ExpiryOrder(k: Key, cutoff: Uint64)
    requires IsExpiry(k)
    ensures Less(Suffix(k), BigEndian(cutoff, 8)) <==> k.ts < cutoff
  {
    hide BigEndian, Less;
    Uint64Bound();
    var id := if k.ChannelExpiry? then k.id else k.hash;
    BigEndianOrder(k.ts, cutoff, 8, id, []);
    assert !Less(id, []) by { NothingBelowEmpty(id); }
    assert BigEndian(cutoff, 8) + [] == BigEndian(cutoff, 8);
  }

  lemma NothingBelowEmpty(x: seq<int>)
    ensures !Less(x, [])
  {
  }

  lemma SameFamilyExpiry(family: Key, k: Key)
    requires IsExpiry(family) && SameFamily(family, k)
    ensures IsExpiry(k)
  {
    SignatureLetters(family);
    SignatureLetters(k);
  }

  /** The pruning scan of a kind, from the bare prefix up to the cutoff, is exactly that kind's
      expiry keys below the cutoff. */
  lemma PruneRange(family: Key, cutoff: Uint64, k: Key)
    requires IsExpiry(family)
    ensures var lower := Text(Prefix(family));
            !Less(Bytes(k), lower) && Less(Bytes(k), lower + BigEndian(cutoff, 8))
            <==> SameFamily(family, k) && IsExpiry(k) && k.ts < cutoff
  {
    hide Text, Prefix, Suffix, Less, BigEndian;
    var lower, key := Text(Prefix(family)), Bytes(k);
    if !Less(key, lower) && Less(key, lower + BigEndian(cutoff, 8)) {
      Between(lower, BigEndian(cutoff, 8), key);
      assert lower + key[|lower|..] == key;
      PrefixFree(family, k, key[|lower|..]);
    }
    if SameFamily(family, k) {
      SameFamilyExpiry(family, k);
      NotBelowPrefix(lower, Suffix(k));
      CommonPrefix(lower, Suffix(k), BigEndian(cutoff, 8));
      ExpiryOrder(k, cutoff);
    }
  }

  lemma LatestBounds()
    ensures Text("blob/index/") == Text("blob/index") + [47] && Text("blob/index0") == Text("blob/index") + [48]
  {
    assert "blob/index/"[..10] == "blob/index" && "blob/index0"[..10] == "blob/index";
  }

  /** A key after the stem with a first letter in [47, 48) goes on with letter 47. */
  lemma AfterStem(stem: seq<int>, key: seq<int>)
    requires !Less(key, stem + [47]) && Less(key, stem + [48])
    ensures stem + [47] <= key
  {
    NotBelowStem(stem, key);
    Between(stem, [48], key);
    var rest := key[|stem|..];
    assert key == stem + rest;
    CommonPrefix(stem, rest, [47]);
    CommonPrefix(stem, rest, [48]);
  }

  /** The scan for the latest index sees exactly the pointer keys, in index order. */
  lemma LatestRange(k: Key)
    ensures !Less(Bytes(k), Text("blob/index/")) && Less(Bytes(k), Text("blob/index0")) <==> k.Pointer?
  {
    hide Text, Suffix, Less;
    var stem, lower, key := Text("blob/index"), Text("blob/index/"), Bytes(k);
    LatestBounds();
    if k.Pointer? {
      assert key == lower + Suffix(k) == stem + ([47] + Suffix(k));
      NotBelowPrefix(lower, Suffix(k));
      CommonPrefix(stem, [47] + Suffix(k), [48]);
      FirstLess(Suffix(k));
    }
    if !Less(key, lower) && Less(key, stem + [48]) {
      AfterStem(stem, key);
      assert key == lower + key[|lower|..];
      PrefixFree(Pointer(0), k, key[|lower|..]);
      SameFamilyPointer(k);
    }
  }

  lemma FirstLess(x: seq<int>)
    ensures Less([47] + x, [48])
  {
  }

  lemma SameFamilyPointer(k: Key)
    requires SameFamily(Pointer(0), k)
    ensures k.Pointer?
  {
    SignatureLetters(k);
    SignatureLetters(Pointer(0));
  }

  lemma NotBelowStem(stem: seq<int>, key: seq<int>)
    requires !Less(key, stem + [47])
    ensures !Less(key, stem)
  {
    if Less(key, stem) {
      CommonPrefix(stem, [], [47]);
      assert stem + [] == stem;
      Transitive(key, stem, stem + [47]);
    }
  }

  lemma PointerOrder(n: Uint64, m: Uint64)
    ensures Less(Bytes(Pointer(n)), Bytes(Pointer(m))) <==> n < m
  {
    CommonPrefix(Text("blob/index/"), BigEndian(n, 8), BigEndian(m, 8));
    Uint64Bound();
    BigEndianOrder(n, m, 8, [], []);
    assert BigEndian(n, 8) + [] == BigEndian(n, 8) && BigEndian(m, 8) + [] == BigEndian(m, 8);
  }
}
