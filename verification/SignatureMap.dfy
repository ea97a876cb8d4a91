/** The order of the smart-wallet signature map (src/x402-signer.ts): the signer's key first, then
    the policies sorted by their address bytes.  Soroban wants the keys strictly ascending. */
module SignatureMap {
  type Bytes = seq<nat>

  // ----- The byte order -----

  /** Lexicographic: `a` ends, or is smaller, where the two first differ. */
  ghost predicate Less(a: Bytes, b: Bytes) {
    exists k: nat :: LessAt(a, b, k)
  }

  predicate LessAt(a: Bytes, b: Bytes, k: nat) {
    k <= |a| && k < |b| && a[..k] == b[..k] && (k == |a| || a[k] < b[k])
  }

  /** `comparePolicyAddresses` is a three-way comparison in this order. */
  method ComparePolicyAddresses(a: Bytes, b: Bytes) returns (diff: int)
    ensures diff < 0 <==> Less(a, b)
    ensures diff > 0 <==> Less(b, a)
    ensures diff == 0 <==> a == b
  {
    var shorter := if |a| < |b| then |a| else |b|;
    for i := 0 to shorter
      invariant a[..i] == b[..i]
    {
      var x: int, y: int := a[i], b[i];
      diff := x - y;
      if diff != 0 {
        if diff < 0 {
          DecidedAt(a, b, i);
        } else {
          DecidedAt(b, a, i);
        }
        return;
      }
      assert a[..i + 1] == a[..i] + [a[i]] && b[..i + 1] == b[..i] + [b[i]];
    }
    diff := |a| - |b|;
    if diff < 0 {
      DecidedAt(a, b, shorter);
    } else if diff > 0 {
      DecidedAt(b, a, shorter);
    } else {
      assert a[..shorter] == a && b[..shorter] == b;
      NotLessThanItself(a);
    }
  }

  lemma DecidedAt(a: Bytes, b: Bytes, k: nat)
    requires LessAt(a, b, k)
    ensures Less(a, b) && !Less(b, a) && a != b
  {
    forall m: nat ensures !LessAt(b, a, m) {
      OnlyOneWay(a, b, k, m);
    }
  }

  lemma OnlyOneWay(a: Bytes, b: Bytes, k: nat, m: nat)
    requires LessAt(a, b, k)
    ensures !LessAt(b, a, m)
  {
    assert forall i, n :: 0 <= i < n <= |a| ==> a[..n][i] == a[i];
    assert forall i, n :: 0 <= i < n <= |b| ==> b[..n][i] == b[i];
    if m < k {
      assert a[..k][m] == b[..k][m];
    }
  }

  lemma NotLessThanItself(a: Bytes)
    ensures !Less(a, a)
  {
  }

  lemma LessIsAsymmetric(a: Bytes, b: Bytes)
    requires Less(a, b)
    ensures !Less(b, a) && a != b
  {
    var k: nat :| LessAt(a, b, k);
    DecidedAt(a, b, k);
  }

  lemma LessIsTransitive(a: Bytes, b: Bytes, c: Bytes)
    requires Less(a, b) && Less(b, c)
    ensures Less(a, c)
  {
    var k: nat :| LessAt(a, b, k);
    var m: nat :| LessAt(b, c, m);
    if k <= m {
      assert c[..k] == c[..m][..k] && b[..k] == b[..m][..k];
      assert k < m ==> c[k] == c[..m][k] == b[..m][k] == b[k];
      assert LessAt(a, c, k);
    } else {
      assert a[..m] == a[..k][..m] && b[..m] == b[..k][..m];
      assert a[m] == a[..k][m] == b[..k][m] == b[m];
      assert LessAt(a, c, m);
    }
  }

  lemma {:induction false} LessIsTotal(a: Bytes, b: Bytes)
    ensures Less(a, b) || Less(b, a) || a == b
  {
    if a == [] && b != [] {
      assert LessAt(a, b, 0);
    } else if b == [] && a != [] {
      assert LessAt(b, a, 0);
    } else if a != [] {
      if a[0] < b[0] {
        assert LessAt(a, b, 0);
      } else if b[0] < a[0] {
        assert LessAt(b, a, 0);
      } else {
        LessIsTotal(a[1..], b[1..]);
        assert a == [a[0]] + a[1..] && b == [b[0]] + b[1..];
        if Less(a[1..], b[1..]) {
          LessOfTails(a, b);
        } else if Less(b[1..], a[1..]) {
          LessOfTails(b, a);
        }
      }
    }
  }

  lemma LessOfTails(a: Bytes, b: Bytes)
    requires a != [] && b != [] && a[0] == b[0] && Less(a[1..], b[1..])
    ensures Less(a, b)
  {
    var k: nat :| LessAt(a[1..], b[1..], k);
    assert a[..k + 1] == [a[0]] + a[1..][..k] && b[..k + 1] == [b[0]] + b[1..][..k];
    assert LessAt(a, b, k + 1);
  }

  // ----- Sorting the policies -----

  ghost predicate Sorted(s: seq<Bytes>) {
    forall i, j :: 0 <= i < j < |s| ==> !Less(s[j], s[i])
  }

  /** `[...policies].sort(comparePolicyAddresses)`, up to the algorithm. */
  method SortPolicies(policies: seq<Bytes>) returns (sorted: seq<Bytes>)
    ensures Sorted(sorted) && multiset(sorted) == multiset(policies)
  {
    sorted := [];
    for n := 0 to |policies|
      invariant Sorted(sorted) && multiset(sorted) == multiset(policies[..n])
    {
      sorted := Insert(sorted, policies[n]);
      assert policies[..n + 1] == policies[..n] + [policies[n]];
    }
    assert policies[..|policies|] == policies;
  }

  method Insert(s: seq<Bytes>, x: Bytes) returns (t: seq<Bytes>)
    requires Sorted(s)
    ensures Sorted(t) && multiset(t) == multiset(s) + multiset{x}
  {
    var i := |s|;
    while i > 0
      invariant 0 <= i <= |s|
      invariant forall j :: i <= j < |s| ==> Less(x, s[j])
    {
      var order := ComparePolicyAddresses(x, s[i - 1]);
      if order >= 0 {
        break;
      }
      i := i - 1;
    }
    t := s[..i] + [x] + s[i..];
    assert s == s[..i] + s[i..];
    InsertedIsSorted(s, x, i);
  }

  lemma InsertedIsSorted(s: seq<Bytes>, x: Bytes, i: nat)
    requires Sorted(s) && i <= |s| && (forall j :: i <= j < |s| ==> Less(x, s[j])) && (i > 0 ==> !Less(x, s[i - 1]))
    ensures Sorted(s[..i] + [x] + s[i..])
  {
    var t := s[..i] + [x] + s[i..];
    forall j, k | 0 <= j < k < |t| ensures !Less(t[k], t[j]) {
      if j < i && k == i {
        NotBelow(s, x, i, j);
      } else if j == i {
        LessIsAsymmetric(x, s[k - 1]);
      }
    }
  }

  lemma NotBelow(s: seq<Bytes>, x: Bytes, i: nat, j: nat)
    requires Sorted(s) && j < i <= |s| && !Less(x, s[i - 1])
    ensures !Less(x, s[j])
  {
    if Less(x, s[j]) && j < i - 1 {
      LessIsTotal(s[j], s[i - 1]);
      if s[j] != s[i - 1] {
        LessIsTransitive(x, s[j], s[i - 1]);
      }
    }
  }

  /** The order is total, so there is only one sorted arrangement. */
  lemma {:induction false} SortedIsUnique(s: seq<Bytes>, t: seq<Bytes>)
    requires Sorted(s) && Sorted(t) && multiset(s) == multiset(t)
    ensures s == t
    decreases |s|
  {
    if s == [] {
      assert |multiset(t)| == |multiset(s)| == 0;
    } else {
      assert |multiset(t)| == |multiset(s)| && t != [];
      SameFirst(s, t);
      RestOf(s);
      RestOf(t);
      SortedIsUnique(s[1..], t[1..]);
      assert s == [s[0]] + s[1..] && t == [t[0]] + t[1..];
    }
  }

  lemma RestOf(s: seq<Bytes>)
    requires s != []
    ensures multiset(s[1..]) == multiset(s) - multiset{s[0]}
  {
    assert s == [s[0]] + s[1..];
  }

  lemma SameFirst(s: seq<Bytes>, t: seq<Bytes>)
    requires s != [] && t != [] && Sorted(s) && Sorted(t) && multiset(s) == multiset(t)
    ensures s[0] == t[0]
  {
    FirstIsLeast(s, t[0]) by { assert t[0] in multiset(s); }
    FirstIsLeast(t, s[0]) by { assert s[0] in multiset(t); }
    LessIsTotal(s[0], t[0]);
  }

  lemma FirstIsLeast(s: seq<Bytes>, x: Bytes)
    requires Sorted(s) && x in s
    ensures !Less(x, s[0])
  {
    var i :| 0 <= i < |s| && s[i] == x;
    NotLessThanItself(s[0]);
  }

  // ----- The map -----

  datatype SignerKind = Ed25519 | Secp256r1

  /** A key of the map, a vector of a symbol and a value. */
  datatype Key = Key(symbol: Bytes, payload: Bytes)

  datatype Value = SignatureValue(signature: Bytes) | PolicyValue

  datatype MapEntry = MapEntry(key: Key, value: Value)

  function Codes(s: string): Bytes { seq(|s|, i requires 0 <= i < |s| => s[i] as int) }

  function SymbolOf(kind: SignerKind): Bytes {
    match kind
    case Ed25519 => Codes("Ed25519")
    case Secp256r1 => Codes("Secp256r1")
  }

  const POLICY := Codes("Policy")

  /** The order of vectors: the symbol decides first. */
  ghost predicate KeyLess(a: Key, b: Key) {
    Less(a.symbol, b.symbol) || (a.symbol == b.symbol && Less(a.payload, b.payload))
  }

  ghost predicate Ascending(entries: seq<MapEntry>) {
    forall i, j :: 0 <= i < j < |entries| ==> KeyLess(entries[i].key, entries[j].key)
  }

  function PolicyEntries(sorted: seq<Bytes>): seq<MapEntry> {
    seq(|sorted|, i requires 0 <= i < |sorted| => MapEntry(Key(POLICY, sorted[i]), PolicyValue))
  }

  ghost predicate IsMapOf(entries: seq<MapEntry>, kind: SignerKind, publicKey: Bytes, signature: Bytes,
                          policies: seq<Bytes>) {
    exists sorted :: Sorted(sorted) && multiset(sorted) == multiset(policies)
      && entries == [MapEntry(Key(SymbolOf(kind), publicKey), SignatureValue(signature))] + PolicyEntries(sorted)
  }

  ghost predicate Distinct(policies: seq<Bytes>) {
    forall p :: multiset(policies)[p] <= 1
  }

  /** `setSignatureMap`: the signer, then every configured policy; strictly ascending exactly when the
      policies are distinct and, if there are any, the signer is an Ed25519 key. */
  method SetSignatureMap(kind: SignerKind, publicKey: Bytes, signature: Bytes, policies: seq<Bytes>)
    returns (entries: seq<MapEntry>)
    ensures IsMapOf(entries, kind, publicKey, signature, policies)
    ensures Ascending(entries) <==> Distinct(policies) && (policies == [] || kind == Ed25519)
  {
    var sorted := SortPolicies(policies);
    entries := [MapEntry(Key(SymbolOf(kind), publicKey), SignatureValue(signature))];
    for i := 0 to |sorted|
      invariant entries
           == [MapEntry(Key(SymbolOf(kind), publicKey), SignatureValue(signature))] + PolicyEntries(sorted[..i])
    {
      entries := entries + [MapEntry(Key(POLICY, sorted[i]), PolicyValue)];
      assert PolicyEntries(sorted[..i + 1])
         == PolicyEntries(sorted[..i]) + [MapEntry(Key(POLICY, sorted[i]), PolicyValue)];
    }
    assert sorted[..|sorted|] == sorted;
    AscendingIff(entries, kind, publicKey, signature, sorted);
    assert policies == [] <==> sorted == [] by {
      assert |multiset(sorted)| == |sorted| && |multiset(policies)| == |policies|;
    }
  }

  /** The map does not depend on the order in which the policies are configured. */
  lemma MapIgnoresConfiguredOrder(kind: SignerKind, publicKey: Bytes, signature: Bytes, policies: seq<Bytes>,
                                  other: seq<Bytes>,
                                  entries: seq<MapEntry>, entries': seq<MapEntry>)
    requires multiset(policies) == multiset(other)
    requires IsMapOf(entries, kind, publicKey, signature, policies)
      && IsMapOf(entries', kind, publicKey, signature, other)
    ensures entries == entries'
  {
    var s :| Sorted(s) && multiset(s) == multiset(policies)
      && entries == [MapEntry(Key(SymbolOf(kind), publicKey), SignatureValue(signature))] + PolicyEntries(s);
    var t :| Sorted(t) && multiset(t) == multiset(other)
      && entries' == [MapEntry(Key(SymbolOf(kind), publicKey), SignatureValue(signature))] + PolicyEntries(t);
    SortedIsUnique(s, t);
  }

  /** It holds the signer and exactly the configured policies. */
  lemma MapHoldsSignerAndPolicies(entries: seq<MapEntry>, kind: SignerKind, publicKey: Bytes, signature: Bytes,
                                  policies: seq<Bytes>)
    requires IsMapOf(entries, kind, publicKey, signature, policies)
    ensures var symbol := Codes(if kind == Ed25519 then "Ed25519" else "Secp256r1");
      forall e :: e in entries <==>
      e == MapEntry(Key(symbol, publicKey), SignatureValue(signature))
      || exists p <- policies :: e == MapEntry(Key(Codes("Policy"), p), PolicyValue)
  {
    var signer := MapEntry(Key(SymbolOf(kind), publicKey), SignatureValue(signature));
    var s :| Sorted(s) && multiset(s) == multiset(policies) && entries == [signer] + PolicyEntries(s);
    assert forall p :: p in s <==> p in multiset(s);
    assert forall p :: p in policies <==> p in multiset(policies);
    forall e ensures e in PolicyEntries(s) <==> exists p <- policies :: e == MapEntry(Key(POLICY, p), PolicyValue) {
      if e in PolicyEntries(s) {
        var i :| 0 <= i < |s| && PolicyEntries(s)[i] == e;
        assert s[i] in policies;
      }
      if exists p <- policies :: e == MapEntry(Key(POLICY, p), PolicyValue) {
        var p :| p in policies && e == MapEntry(Key(POLICY, p), PolicyValue);
        assert p in s;
        var i :| 0 <= i < |s| && s[i] == p;
        assert PolicyEntries(s)[i] == e;
      }
    }
  }

  lemma SymbolsCompare(kind: SignerKind)
    ensures SymbolOf(kind) != POLICY
    ensures Less(SymbolOf(kind), POLICY) <==> kind == Ed25519
  {
    if kind == Ed25519 {
      assert LessAt(SymbolOf(kind), POLICY, 0);
      DecidedAt(SymbolOf(kind), POLICY, 0);
    } else {
      assert LessAt(POLICY, SymbolOf(kind), 0);
      DecidedAt(POLICY, SymbolOf(kind), 0);
    }
  }

  lemma AscendingIff(entries: seq<MapEntry>, kind: SignerKind, publicKey: Bytes, signature: Bytes, sorted: seq<Bytes>)
    requires Sorted(sorted)
    requires entries == [MapEntry(Key(SymbolOf(kind), publicKey), SignatureValue(signature))] + PolicyEntries(sorted)
    ensures Ascending(entries) <==> Distinct(sorted) && (sorted == [] || kind == Ed25519)
  {
    SymbolsCompare(kind);
    NotLessThanItself(POLICY);
    StrictIffDistinct(sorted);
    assert forall i :: 0 <= i < |sorted| ==> entries[i + 1] == MapEntry(Key(POLICY, sorted[i]), PolicyValue);
    if Ascending(entries) {
      forall i, j | 0 <= i < j < |sorted| ensures Less(sorted[i], sorted[j]) {
        assert KeyLess(entries[i + 1].key, entries[j + 1].key);
      }
      assert sorted != [] ==> KeyLess(entries[0].key, entries[1].key);
    }
    if Strict(sorted) && (sorted == [] || kind == Ed25519) {
      forall i, j | 0 <= i < j < |entries| ensures KeyLess(entries[i].key, entries[j].key) {
        assert entries[j] == MapEntry(Key(POLICY, sorted[j - 1]), PolicyValue);
        if i > 0 {
          assert Less(sorted[i - 1], sorted[j - 1]);
        }
      }
    }
  }

  ghost predicate Strict(s: seq<Bytes>) {
    forall i, j :: 0 <= i < j < |s| ==> Less(s[i], s[j])
  }

  lemma StrictIffDistinct(s: seq<Bytes>)
    requires Sorted(s)
    ensures Strict(s) <==> Distinct(s)
  {
    if Strict(s) {
      StrictMeansDistinct(s);
    }
    if Distinct(s) {
      forall i, j | 0 <= i < j < |s| ensures Less(s[i], s[j]) {
        LessIsTotal(s[i], s[j]);
        if s[i] == s[j] {
          TwoOccurrences(s, i, j);
        }
      }
    }
  }

  lemma {:induction false} StrictMeansDistinct(s: seq<Bytes>)
    requires Strict(s)
    ensures Distinct(s)
  {
    if s != [] {
      var front, last := s[..|s| - 1], s[|s| - 1];
      StrictMeansDistinct(front);
      assert s == front + [last];
      forall i | 0 <= i < |front| ensures front[i] != last {
        assert Less(s[i], s[|s| - 1]);
        LessIsAsymmetric(s[i], last);
      }
      assert last !in multiset(front);
    }
  }

  lemma TwoOccurrences(s: seq<Bytes>, i: nat, j: nat)
    requires i < j < |s| && s[i] == s[j]
    ensures multiset(s)[s[i]] >= 2
  {
    assert s == s[..j] + s[j..];
    assert s[..j][i] == s[i] && s[i] in multiset(s[..j]);
    assert s[j..][0] == s[i] && s[i] in multiset(s[j..]);
    assert multiset(s) == multiset(s[..j]) + multiset(s[j..]);
  }
}
