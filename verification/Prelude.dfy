/** Shared value types: optional values, results and the machine bounds the program relies on. */
module Prelude {

  datatype Option<+T> = None | Some(value: T)

  datatype Result<+T, +E> = Ok(value: T) | Err(error: E)

  function Min(a: nat, b: nat): nat {
    if a <= b then a else b
  }

  function Max(a: nat, b: nat): nat {
    if a <= b then b else a
  }

  /** Difference that stops at zero. */
  function SaturatingSub(a: nat, b: nat): nat {
    if a >= b then a - b else 0
  }

  const U32_BOUND: nat := 0x1_0000_0000
  const U64_BOUND: nat := 0x1_0000_0000_0000_0000

  lemma SubsetOfSameSize<T>(a: set<T>, b: set<T>)
    requires a <= b && |a| == |b|
    ensures a == b
  {
    if x :| x in b && x !in a {
      assert a <= b - {x};
      SubsetSize(a, b - {x});
    }
  }

  lemma SubsetSize<T>(a: set<T>, b: set<T>)
    requires a <= b
    ensures |a| <= |b|
  {
    if a != {} {
      var x :| x in a;
      SubsetSize(a - {x}, b - {x});
    }
  }

  lemma Assoc<T>(a: seq<T>, b: seq<T>, c: seq<T>)
    ensures a + (b + c) == a + b + c
  {
  }

  /** Reorderings have the same members. */
  lemma SameMembers<T>(xs: seq<T>, ys: seq<T>)
    requires multiset(xs) == multiset(ys)
    ensures forall x :: x in xs <==> x in ys
  {
    forall x ensures x in xs <==> x in ys {
      assert x in xs <==> x in multiset(xs);
      assert x in ys <==> x in multiset(ys);
    }
  }

  lemma SameWithout<T>(xs: seq<T>, ys: seq<T>, j: nat)
    requires multiset(xs) == multiset(ys) && xs != [] && j < |ys| && ys[j] == xs[|xs| - 1]
    ensures multiset(xs[..|xs| - 1]) == multiset(ys[..j] + ys[j + 1..])
  {
    var front := xs[..|xs| - 1];
    assert xs == front + [ys[j]];
    assert ys == ys[..j] + [ys[j]] + ys[j + 1..];
    var rest := ys[..j] + ys[j + 1..];
    assert multiset(front) + multiset([ys[j]]) == multiset(xs);
    assert multiset(rest) + multiset([ys[j]]) == multiset(ys[..j] + [ys[j]] + ys[j + 1..]);
    assert multiset(front) == multiset(xs) - multiset([ys[j]]);
    assert multiset(rest) == multiset(ys) - multiset([ys[j]]);
  }
}

/** Wire-level values exchanged with the risk-control service (RCS).
    Texts are UTF-8 byte strings; addresses are 20 raw bytes. */
module Wire {

  type Byte = b: int | 0 <= b < 256

  type Text = seq<Byte>

  type Address = a: seq<Byte> | |a| == 20 witness seq(20, _ => 0)

  /** ABI decoding produces strings and arrays; every other JSON scalar is kept as its rendering. */
  datatype Json = Str(text: Text) | Arr(items: seq<Json>) | Other(rendered: Text)

  datatype ActionItem = ActionItem(name: Text, address: Text, params: map<Text, Json>)

  type Actions = map<Text, seq<ActionItem>>

  /** The audit type "quota". */
  const QUOTA: Text := [113, 117, 111, 116, 97]

  predicate UpperCase(b: Byte) {
    'A' as int <= b <= 'Z' as int
  }

  predicate LowerCase(b: Byte) {
    'a' as int <= b <= 'z' as int
  }

  /** ASCII lower-casing of one byte and of a text. */
  function LowerByte(b: Byte): Byte {
    if 65 <= b <= 90 then b + 32 else b
  }

  /** Two bytes are the same, or one letter in both cases. */
  ghost predicate SameLetter(a: Byte, b: Byte) {
    || a == b
    || (UpperCase(a) && LowerCase(b) && a - 'A' as int == b - 'a' as int)
    || (LowerCase(a) && UpperCase(b) && a - 'a' as int == b - 'A' as int)
  }

  function Lower(t: Text): (r: Text)
    ensures |r| == |t|
    ensures forall i :: 0 <= i < |t| ==> r[i] == LowerByte(t[i])
  {
    seq(|t|, i requires 0 <= i < |t| => LowerByte(t[i]))
  }

  /** Lower-casing leaves no capital and identifies exactly the texts that agree letter by letter up to case. */
  lemma LowerIdentifies(s: Text, t: Text)
    ensures forall i :: 0 <= i < |s| ==> !UpperCase(Lower(s)[i]) && SameLetter(s[i], Lower(s)[i])
    ensures Lower(s) == Lower(t) <==> |s| == |t| && forall i :: 0 <= i < |s| ==> SameLetter(s[i], t[i])
  {
    if Lower(s) == Lower(t) {
      assert |s| == |Lower(s)| == |Lower(t)| == |t|;
      forall i | 0 <= i < |s| ensures SameLetter(s[i], t[i]) {
        assert Lower(s)[i] == Lower(t)[i];
      }
    }
  }
}
