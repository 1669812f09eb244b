/** Transactions and their parts, as far as the coin database and the memory pool look at them. */
module Transactions {

  /** 256-bit hashes are only compared, so they are natural numbers here. */
  type Hash = nat

  type Byte = b: int | 0 <= b < 256

  type Script = seq<Byte>

  /** An amount per currency name. */
  type Cash = map<string, int>

  datatype Option<+T> = None | Some(value: T)

  const NULL_INDEX: nat := 0xFFFF_FFFF

  datatype OutPoint = OutPoint(hash: Hash, n: nat) {
    predicate IsNull() {
      hash == 0 && n == NULL_INDEX
    }
  }

  datatype TxIn = TxIn(prevout: OutPoint, scriptSig: Script, nSequence: nat)

  datatype TxOut = TxOut(nValue: Cash, scriptPubKey: Script) {
    /** An output counts as spent when its currency map is empty. */
    predicate IsNull() {
      nValue == map[]
    }
  }

  const NULL_OUT := TxOut(map[], [])

  /** `hash` stands for the value of GetHash(). */
  datatype Transaction = Transaction(
    hash: Hash,
    nVersion: int,
    vin: seq<TxIn>,
    vout: seq<TxOut>,
    nLockTime: nat,
    attachments: Script)
  {
    predicate IsCoinBase() {
      |vin| == 1 && vin[0].prevout.IsNull()
    }
  }

  /** The program's `<` on amounts: not an ordering, an empty map is below every non-empty one. */
  predicate CashLess(a: Cash, b: Cash) {
    && (a != map[] || b != map[])
    && forall name | name in a :: if name in b then a[name] < b[name] else a[name] < 0
  }

  /** The program's `>` on amounts. */
  predicate CashGreater(a: Cash, b: Cash) {
    && (a != map[] || b != map[])
    && forall name | name in a :: if name in b then a[name] > b[name] else a[name] > 0
  }

  /** The program's `==` on amounts: neither below nor above. */
  predicate CashEquals(a: Cash, b: Cash) {
    !CashLess(a, b) && !CashGreater(a, b)
  }

  predicate TxOutEquals(a: TxOut, b: TxOut) {
    CashEquals(a.nValue, b.nValue) && a.scriptPubKey == b.scriptPubKey
  }

  predicate TxOutsEqual(a: seq<TxOut>, b: seq<TxOut>) {
    |a| == |b| && forall i | 0 <= i < |a| :: TxOutEquals(a[i], b[i])
  }

  lemma CashEqualsReflexive(a: Cash)
    ensures CashEquals(a, a)
  {
    if a != map[] {
      var name :| name in a;
    }
  }

  /** Amounts in one and the same currency compare as numbers, and nothing is equal to nothing only. */
  lemma OneCurrency(name: string, x: int, y: int, b: Cash)
    ensures CashLess(map[name := x], map[name := y]) <==> x < y
    ensures CashGreater(map[name := x], map[name := y]) <==> x > y
    ensures CashEquals(map[name := x], map[name := y]) <==> x == y
    ensures CashEquals(map[], b) <==> b == map[]
  {
    assert name in map[name := x] && name in map[name := y];
  }

  /** Different amounts in several currencies can compare equal: more of one and less of another. */
  lemma MixedCompareEqual(more: string, less: string, a: Cash, b: Cash)
    requires more in a && more in b && a[more] > b[more]
    requires less in a && less in b && a[less] < b[less]
    ensures CashEquals(a, b) && CashEquals(b, a) && a != b
  {
  }

  lemma TxOutsEqualReflexive(a: seq<TxOut>)
    ensures TxOutsEqual(a, a)
  {
    forall i | 0 <= i < |a|
      ensures TxOutEquals(a[i], a[i])
    {
      CashEqualsReflexive(a[i].nValue);
    }
  }
}
