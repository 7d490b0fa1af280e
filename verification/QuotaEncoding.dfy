/** Canonical encoding of `actions.quota`: the byte string whose keccak256 is compared at submit time
    and again before packaging. The buffer methods append to `data`; the functions below say what
    they append, and the lemmas say that the result identifies its input. */
module QuotaEncoding {
  import opened Prelude
  import opened Wire

  /** Address parsing is library code: every result holds for any parser. */
  type AddressParser = Text -> Option<Address>

  // ---------------------------------------------------------------------------------------------
  // Key order of the parameter map
  // ---------------------------------------------------------------------------------------------

  /** Lexicographic byte order, the iteration order of the parameter map. */
  predicate LexLess(a: Text, b: Text) {
    |b| > 0 && (|a| == 0 || a[0] < b[0] || (a[0] == b[0] && LexLess(a[1..], b[1..])))
  }

  lemma {:induction false} LexTotal(a: Text, b: Text)
    ensures a == b || LexLess(a, b) || LexLess(b, a)
    ensures !(LexLess(a, b) && LexLess(b, a))
    ensures a == b ==> !LexLess(a, b)
  {
    if |a| > 0 && |b| > 0 {
      LexTotal(a[1..], b[1..]);
      if a[1..] == b[1..] && a[0] == b[0] {
        assert a == [a[0]] + a[1..] && b == [b[0]] + b[1..];
      }
    }
  }

  lemma {:induction false} LexTransitive(a: Text, b: Text, c: Text)
    requires LexLess(a, b) && LexLess(b, c)
    ensures LexLess(a, c)
  {
    if |a| > 0 && a[0] == b[0] == c[0] {
      LexTransitive(a[1..], b[1..], c[1..]);
    }
  }

  ghost predicate IsMinKey(k: Text, keys: set<Text>) {
    k in keys && forall x :: x in keys ==> x == k || LexLess(k, x)
  }

  lemma {:induction false} MinKeyExists(keys: set<Text>)
    requires keys != {}
    ensures exists k :: IsMinKey(k, keys)
    decreases |keys|
  {
    var x :| x in keys;
    if keys == {x} {
      assert IsMinKey(x, keys);
    } else {
      var rest := keys - {x};
      MinKeyExists(rest);
      var m :| IsMinKey(m, rest);
      LexTotal(x, m);
      if LexLess(x, m) {
        forall y | y in keys ensures y == x || LexLess(x, y) {
          if y != x && y != m { LexTransitive(x, m, y); }
        }
        assert IsMinKey(x, keys);
      } else {
        assert IsMinKey(m, keys);
      }
    }
  }

  function MinKey(keys: set<Text>): (k: Text)
    requires keys != {}
    ensures IsMinKey(k, keys)
  {
    MinKeyExists(keys);
    assert forall a, b :: a in keys && b in keys && IsMinKey(a, keys) && IsMinKey(b, keys) ==> a == b by {
      forall a, b | a in keys && b in keys && IsMinKey(a, keys) && IsMinKey(b, keys) ensures a == b {
        LexTotal(a, b);
      }
    }
    var k :| k in keys && forall x :: x in keys ==> x == k || LexLess(k, x);
    k
  }

  /** The map's entries in ascending key order. */
  function Listing(m: map<Text, Json>): (l: seq<(Text, Json)>)
    ensures |l| == |m|
    decreases m.Keys
  {
    if m == map[] then [] else
      var k := MinKey(m.Keys);
      var rest := m - {k};
      assert rest.Keys == m.Keys - {k};
      [(k, m[k])] + Listing(rest)
  }

  // ---------------------------------------------------------------------------------------------
  // The encoding
  // ---------------------------------------------------------------------------------------------

  /** `n as u32`, big endian: the truncation of the cast is explicit. */
  function U32(n: nat): (r: seq<Byte>)
    ensures |r| == 4
  {
    var n1 := n / 256;
    var n2 := n1 / 256;
    [n2 / 256 % 256, n2 % 256, n1 % 256, n % 256]
  }

  function EncBytes(t: Text): seq<Byte> {
    U32(|t|) + t
  }

  function EncJson(v: Json): seq<Byte>
    decreases v, 0
  {
    match v
    case Str(t) => [0] + EncBytes(Lower(t))
    case Arr(xs) => [1] + U32(|xs|) + EncJsons(xs)
    case Other(t) => [2] + EncBytes(Lower(t))
  }

  function EncJsons(xs: seq<Json>): seq<Byte>
    decreases xs, 1
  {
    if xs == [] then [] else EncJson(xs[0]) + EncJsons(xs[1..])
  }

  /** The bytes that stand for an address: 20 raw bytes if it parses, else its lower-cased spelling. */
  function CanonAddress(parse: AddressParser, a: Text): Text {
    match parse(a)
    case Some(raw) => raw
    case None => Lower(a)
  }

  function EncParams(l: seq<(Text, Json)>): seq<Byte> {
    if l == [] then [] else EncBytes(l[0].0) + EncJson(l[0].1) + EncParams(l[1..])
  }

  function EncItem(parse: AddressParser, item: ActionItem): seq<Byte> {
    EncBytes(item.name) + EncBytes(CanonAddress(parse, item.address))
    + U32(|item.params|) + EncParams(Listing(item.params))
  }

  function EncItems(parse: AddressParser, items: seq<ActionItem>): seq<Byte> {
    if items == [] then [] else EncItem(parse, items[0]) + EncItems(parse, items[1..])
  }

  function QuotaOf(actions: Actions): seq<ActionItem> {
    if QUOTA in actions then actions[QUOTA] else []
  }

  /** The buffer that is hashed for an action map. */
  function Encode(parse: AddressParser, actions: Actions): seq<Byte> {
    U32(|QuotaOf(actions)|) + EncItems(parse, QuotaOf(actions))
  }

  // ---------------------------------------------------------------------------------------------
  // The imperative encoder
  // ---------------------------------------------------------------------------------------------

  class Buffer {
    var data: seq<Byte>

    constructor ()
      ensures data == []
    {
      data := [];
    }

    method PushU32(n: nat)
      modifies this
      ensures data == old(data) + U32(n)
    {
      data := data + U32(n);
    }

    method PushBytes(t: Text)
      modifies this
      ensures data == old(data) + EncBytes(t)
    {
      PushU32(|t|);
      data := data + t;
    }

    method PushJsonValue(v: Json)
      modifies this
      ensures data == old(data) + EncJson(v)
      decreases v
    {
      match v
      case Str(t) =>
        data := data + [0];
        PushBytes(Lower(t));
        Assoc(old(data), [0], EncBytes(Lower(t)));
      case Arr(xs) =>
        data := data + [1];
        PushU32(|xs|);
        var i := 0;
        ghost var start := data;
        assert start == old(data) + ([1] + U32(|xs|));
        assert xs[0..] == xs;
        while i < |xs|
          invariant 0 <= i <= |xs|
          invariant data + EncJsons(xs[i..]) == start + EncJsons(xs)
        {
          ghost var before := data;
          PushJsonValue(xs[i]);
          assert xs[i..][1..] == xs[i + 1..];
          Assoc(before, EncJson(xs[i]), EncJsons(xs[i + 1..]));
          i := i + 1;
        }
        assert data + [] == data;
        Assoc(old(data), [1] + U32(|xs|), EncJsons(xs));
      case Other(t) =>
        data := data + [2];
        PushBytes(Lower(t));
        Assoc(old(data), [2], EncBytes(Lower(t)));
    }

    method PushAddress(parse: AddressParser, a: Text)
      modifies this
      ensures data == old(data) + EncBytes(CanonAddress(parse, a))
    {
      match parse(a)
      case Some(raw) =>
        PushU32(20);
        data := data + raw;
      case None =>
        PushBytes(Lower(a));
    }

    method PushParams(params: map<Text, Json>)
      modifies this
      ensures data == old(data) + EncParams(Listing(params))
    {
      var rest := params;
      while rest != map[]
        invariant data + EncParams(Listing(rest)) == old(data) + EncParams(Listing(params))
        decreases rest.Keys
      {
        var key := MinKey(rest.Keys);
        var tail := rest - {key};
        assert Listing(rest) == [(key, rest[key])] + Listing(tail);
        assert Listing(rest)[1..] == Listing(tail);
        ghost var before := data;
        PushBytes(key);
        PushJsonValue(rest[key]);
        Assoc(before, EncBytes(key), EncJson(rest[key]));
        Assoc(before, EncBytes(key) + EncJson(rest[key]), EncParams(Listing(tail)));
        assert tail.Keys == rest.Keys - {key};
        rest := tail;
      }
      assert data + [] == data;
    }

    method PushItem(parse: AddressParser, item: ActionItem)
      modifies this
      ensures data == old(data) + EncItem(parse, item)
    {
      var name, address := EncBytes(item.name), EncBytes(CanonAddress(parse, item.address));
      PushBytes(item.name);
      PushAddress(parse, item.address);
      Assoc(old(data), name, address);
      PushU32(|item.params|);
      Assoc(old(data), name + address, U32(|item.params|));
      PushParams(item.params);
      Assoc(old(data), name + address + U32(|item.params|), EncParams(Listing(item.params)));
    }
  }

  lemma NextItem(parse: AddressParser, data: seq<Byte>, quota: seq<ActionItem>, i: nat)
    requires i < |quota|
    ensures data + EncItem(parse, quota[i]) + EncItems(parse, quota[i + 1..]) == data + EncItems(parse, quota[i..])
  {
    assert quota[i..][1..] == quota[i + 1..];
    Assoc(data, EncItem(parse, quota[i]), EncItems(parse, quota[i + 1..]));
  }

  /** `encode_and_hash` up to the hash itself: fills one buffer with the whole quota list. */
  method EncodeActions(parse: AddressParser, actions: Actions) returns (buf: seq<Byte>)
    ensures buf == Encode(parse, actions)
  {
    var quota := QuotaOf(actions);
    var b := new Buffer();
    b.PushU32(|quota|);
    assert b.data == U32(|quota|);
    assert quota[0..] == quota;
    var i := 0;
    while i < |quota|
      invariant 0 <= i <= |quota|
      invariant b.data + EncItems(parse, quota[i..]) == Encode(parse, actions)
    {
      NextItem(parse, b.data, quota, i);
      b.PushItem(parse, quota[i]);
      i := i + 1;
    }
    assert quota[i..] == [];
    assert b.data + [] == b.data;
    buf := b.data;
  }

  // ---------------------------------------------------------------------------------------------
  // What the encoding identifies
  // ---------------------------------------------------------------------------------------------

  /** A value up to ASCII case of its texts. */
  function CanonJson(v: Json): Json
    decreases v, 0
  {
    match v
    case Str(t) => Str(Lower(t))
    case Arr(xs) => Arr(CanonJsons(xs))
    case Other(t) => Other(Lower(t))
  }

  function CanonJsons(xs: seq<Json>): (r: seq<Json>)
    ensures |r| == |xs|
    decreases xs, 1
  {
    if xs == [] then [] else [CanonJson(xs[0])] + CanonJsons(xs[1..])
  }

  function CanonParams(m: map<Text, Json>): map<Text, Json> {
    map k | k in m :: CanonJson(m[k])
  }

  function CanonItem(parse: AddressParser, item: ActionItem): ActionItem {
    ActionItem(item.name, CanonAddress(parse, item.address), CanonParams(item.params))
  }

  /** A quota list up to ASCII case of parameter values and up to address spelling. */
  function CanonQuota(parse: AddressParser, items: seq<ActionItem>): (r: seq<ActionItem>)
    ensures |r| == |items|
  {
    if items == [] then [] else [CanonItem(parse, items[0])] + CanonQuota(parse, items[1..])
  }

  /** The same letters up to ASCII case. */
  ghost predicate SameText(s: Text, t: Text) {
    |s| == |t| && forall i :: 0 <= i < |s| ==> SameLetter(s[i], t[i])
  }

  ghost predicate SameJson(v: Json, w: Json)
    decreases v
  {
    match v
    case Str(t) => w.Str? && SameText(t, w.text)
    case Arr(xs) => w.Arr? && |xs| == |w.items| && forall i :: 0 <= i < |xs| ==> SameJson(xs[i], w.items[i])
    case Other(t) => w.Other? && SameText(t, w.rendered)
  }

  /** Two spellings of one address, or two unparseable texts that differ in case only, or an unparseable text of
      twenty bytes that happens to be the raw address in lower case. */
  ghost predicate SameAddress(parse: AddressParser, a: Text, b: Text) {
    || (parse(a).Some? && parse(a) == parse(b))
    || (parse(a).None? && parse(b).None? && SameText(a, b))
    || (parse(a).Some? && parse(b).None? && |b| == 20 && parse(a).value == Lower(b))
    || (parse(a).None? && parse(b).Some? && |a| == 20 && parse(b).value == Lower(a))
  }

  ghost predicate SameItem(parse: AddressParser, x: ActionItem, y: ActionItem) {
    && x.name == y.name && SameAddress(parse, x.address, y.address) && x.params.Keys == y.params.Keys
    && forall k :: k in x.params ==> SameJson(x.params[k], y.params[k])
  }

  /** The same quota: item by item, in order, the same event and parameters at the same address. */
  ghost predicate SameQuota(parse: AddressParser, xs: seq<ActionItem>, ys: seq<ActionItem>) {
    |xs| == |ys| && forall i :: 0 <= i < |xs| ==> SameItem(parse, xs[i], ys[i])
  }

  lemma {:induction false} CanonJsonsAt(xs: seq<Json>, i: nat)
    requires i < |xs|
    ensures CanonJsons(xs)[i] == CanonJson(xs[i])
  {
    if i > 0 { CanonJsonsAt(xs[1..], i - 1); }
  }

  lemma {:induction false} SameJsonIff(v: Json, w: Json)
    ensures CanonJson(v) == CanonJson(w) <==> SameJson(v, w)
    decreases v
  {
    match v
    case Str(t) => if w.Str? { LowerIdentifies(t, w.text); }
    case Other(t) => if w.Other? { LowerIdentifies(t, w.rendered); }
    case Arr(xs) =>
      if w.Arr? && |xs| == |w.items| {
        forall i | 0 <= i < |xs| ensures CanonJsons(xs)[i] == CanonJsons(w.items)[i] <==> SameJson(xs[i], w.items[i]) {
          CanonJsonsAt(xs, i);
          CanonJsonsAt(w.items, i);
          SameJsonIff(xs[i], w.items[i]);
        }
      }
  }

  lemma SameItemIff(parse: AddressParser, x: ActionItem, y: ActionItem)
    ensures CanonItem(parse, x) == CanonItem(parse, y) <==> SameItem(parse, x, y)
  {
    LowerIdentifies(x.address, y.address);
    if x.params.Keys == y.params.Keys {
      forall k | k in x.params
        ensures CanonParams(x.params)[k] == CanonParams(y.params)[k] <==> SameJson(x.params[k], y.params[k])
      {
        SameJsonIff(x.params[k], y.params[k]);
      }
    } else {
      assert CanonParams(x.params).Keys == x.params.Keys && CanonParams(y.params).Keys == y.params.Keys;
    }
  }

  lemma {:induction false} CanonQuotaAt(parse: AddressParser, items: seq<ActionItem>, i: nat)
    requires i < |items|
    ensures CanonQuota(parse, items)[i] == CanonItem(parse, items[i])
  {
    if i > 0 { CanonQuotaAt(parse, items[1..], i - 1); }
  }

  lemma SameQuotaIff(parse: AddressParser, xs: seq<ActionItem>, ys: seq<ActionItem>)
    ensures CanonQuota(parse, xs) == CanonQuota(parse, ys) <==> SameQuota(parse, xs, ys)
  {
    if |xs| == |ys| {
      forall i | 0 <= i < |xs|
        ensures CanonQuota(parse, xs)[i] == CanonQuota(parse, ys)[i] <==> SameItem(parse, xs[i], ys[i])
      {
        CanonQuotaAt(parse, xs, i);
        CanonQuotaAt(parse, ys, i);
        SameItemIff(parse, xs[i], ys[i]);
      }
    }
  }

  /** Every length fits its u32 prefix. */
  ghost predicate FitsJson(v: Json)
    decreases v
  {
    match v
    case Str(t) => |t| < U32_BOUND
    case Arr(xs) => |xs| < U32_BOUND && forall i :: 0 <= i < |xs| ==> FitsJson(xs[i])
    case Other(t) => |t| < U32_BOUND
  }

  ghost predicate FitsItem(parse: AddressParser, item: ActionItem) {
    && |item.name| < U32_BOUND
    && |CanonAddress(parse, item.address)| < U32_BOUND
    && |item.params| < U32_BOUND
    && forall k :: k in item.params ==> |k| < U32_BOUND && FitsJson(item.params[k])
  }

  ghost predicate Fits(parse: AddressParser, items: seq<ActionItem>) {
    |items| < U32_BOUND && forall i :: 0 <= i < |items| ==> FitsItem(parse, items[i])
  }

  lemma U32Injective(n: nat, m: nat)
    requires n < U32_BOUND && m < U32_BOUND && U32(n) == U32(m)
    ensures n == m
  {
    assert n % 256 == U32(n)[3] && n / 256 % 256 == U32(n)[2] && n / 256 / 256 % 256 == U32(n)[1];
    assert m % 256 == U32(m)[3] && m / 256 % 256 == U32(m)[2] && m / 256 / 256 % 256 == U32(m)[1];
    assert n / 256 / 256 / 256 < 256 && m / 256 / 256 / 256 < 256;
    assert n / 256 / 256 / 256 == U32(n)[0] && m / 256 / 256 / 256 == U32(m)[0];
  }

  /** Two equal strings with heads of the same length split in the same place. */
  lemma SplitEqual(a: seq<Byte>, r: seq<Byte>, a': seq<Byte>, r': seq<Byte>)
    requires a + r == a' + r' && |a| == |a'|
    ensures a == a' && r == r'
  {
    assert a == (a + r)[..|a|] == (a' + r')[..|a'|] == a';
    assert r == (a + r)[|a|..] == (a' + r')[|a'|..] == r';
  }

  lemma CutPrefix(n: nat, a: seq<Byte>, m: nat, b: seq<Byte>) returns (rest: seq<Byte>)
    requires n < U32_BOUND && m < U32_BOUND
    requires U32(n) + a <= U32(m) + b
    ensures n == m && a + rest == b + []
  {
    rest := (U32(m) + b)[4 + |a|..];
    Assoc(U32(n), a, rest);
    SplitEqual(U32(n), a + rest, U32(m), b);
    U32Injective(n, m);
  }

  lemma BytesPrefixFree(t: Text, r: seq<Byte>, t': Text, r': seq<Byte>)
    requires |t| < U32_BOUND && |t'| < U32_BOUND
    requires EncBytes(t) + r == EncBytes(t') + r'
    ensures t == t' && r == r'
  {
    assert EncBytes(t) + r == U32(|t|) + (t + r);
    assert EncBytes(t') + r' == U32(|t'|) + (t' + r');
    SplitEqual(U32(|t|), t + r, U32(|t'|), t' + r');
    U32Injective(|t|, |t'|);
    SplitEqual(t, r, t', r');
  }

  /** No encoded value is a prefix of another: whatever follows, a value and its rest are determined. */
  lemma {:induction false} JsonPrefixFree(v: Json, r: seq<Byte>, v': Json, r': seq<Byte>)
    requires FitsJson(v) && FitsJson(v')
    requires EncJson(v) + r == EncJson(v') + r'
    ensures CanonJson(v) == CanonJson(v') && r == r'
    decreases v, 0
  {
    SameTag(v, r, v', r');
    match v
    case Str(t) => ScalarPrefixFree(0, t, r, v'.text, r');
    case Other(t) => ScalarPrefixFree(2, t, r, v'.rendered, r');
    case Arr(xs) =>
      var xs' := v'.items;
      Assoc([1] + U32(|xs|), EncJsons(xs), r);
      Assoc([1] + U32(|xs'|), EncJsons(xs'), r');
      SplitEqual([1] + U32(|xs|), EncJsons(xs) + r, [1] + U32(|xs'|), EncJsons(xs') + r');
      SplitEqual([1], U32(|xs|), [1], U32(|xs'|));
      U32Injective(|xs|, |xs'|);
      JsonsPrefixFree(xs, r, xs', r');
  }

  function Tag(v: Json): Byte {
    match v case Str(_) => 0 case Arr(_) => 1 case Other(_) => 2
  }

  lemma SameTag(v: Json, r: seq<Byte>, v': Json, r': seq<Byte>)
    requires EncJson(v) + r == EncJson(v') + r'
    ensures Tag(v) == Tag(v')
  {
    assert (EncJson(v) + r)[0] == EncJson(v)[0] == Tag(v);
    assert (EncJson(v') + r')[0] == EncJson(v')[0] == Tag(v');
  }

  lemma ScalarPrefixFree(tag: Byte, t: Text, r: seq<Byte>, t': Text, r': seq<Byte>)
    requires |t| < U32_BOUND && |t'| < U32_BOUND
    requires [tag] + EncBytes(Lower(t)) + r == [tag] + EncBytes(Lower(t')) + r'
    ensures Lower(t) == Lower(t') && r == r'
  {
    assert [tag] + EncBytes(Lower(t)) + r == [tag] + (EncBytes(Lower(t)) + r);
    assert [tag] + EncBytes(Lower(t')) + r' == [tag] + (EncBytes(Lower(t')) + r');
    SplitEqual([tag], EncBytes(Lower(t)) + r, [tag], EncBytes(Lower(t')) + r');
    BytesPrefixFree(Lower(t), r, Lower(t'), r');
  }

  lemma {:induction false} JsonsPrefixFree(xs: seq<Json>, r: seq<Byte>, xs': seq<Json>, r': seq<Byte>)
    requires |xs| == |xs'|
    requires forall i :: 0 <= i < |xs| ==> FitsJson(xs[i]) && FitsJson(xs'[i])
    requires EncJsons(xs) + r == EncJsons(xs') + r'
    ensures CanonJsons(xs) == CanonJsons(xs') && r == r'
    decreases xs, 1
  {
    if xs == [] {
      assert EncJsons(xs) + r == r && EncJsons(xs') + r' == r';
    } else {
      var tail, tail' := EncJsons(xs[1..]) + r, EncJsons(xs'[1..]) + r';
      Assoc(EncJson(xs[0]), EncJsons(xs[1..]), r);
      Assoc(EncJson(xs'[0]), EncJsons(xs'[1..]), r');
      JsonPrefixFree(xs[0], tail, xs'[0], tail');
      JsonsPrefixFree(xs[1..], r, xs'[1..], r');
    }
  }

  /** Entries of a listing up to ASCII case of their values. */
  function CanonListing(l: seq<(Text, Json)>): (r: seq<(Text, Json)>)
    ensures |r| == |l|
  {
    if l == [] then [] else [(l[0].0, CanonJson(l[0].1))] + CanonListing(l[1..])
  }

  ghost predicate FitsListing(l: seq<(Text, Json)>) {
    forall i :: 0 <= i < |l| ==> |l[i].0| < U32_BOUND && FitsJson(l[i].1)
  }

  lemma ParamsHead(l: seq<(Text, Json)>, r: seq<Byte>)
    requires l != []
    ensures EncParams(l) + r == EncBytes(l[0].0) + (EncJson(l[0].1) + (EncParams(l[1..]) + r))
  {
    Assoc(EncBytes(l[0].0) + EncJson(l[0].1), EncParams(l[1..]), r);
    Assoc(EncBytes(l[0].0), EncJson(l[0].1), EncParams(l[1..]) + r);
  }

  lemma {:induction false} ParamsPrefixFree(l: seq<(Text, Json)>, r: seq<Byte>, l': seq<(Text, Json)>, r': seq<Byte>)
    requires |l| == |l'| && FitsListing(l) && FitsListing(l')
    requires EncParams(l) + r == EncParams(l') + r'
    ensures CanonListing(l) == CanonListing(l') && r == r'
  {
    if l == [] {
      assert EncParams(l) + r == r && EncParams(l') + r' == r';
    } else {
      var tail, tail' := EncParams(l[1..]) + r, EncParams(l'[1..]) + r';
      ParamsHead(l, r);
      ParamsHead(l', r');
      BytesPrefixFree(l[0].0, EncJson(l[0].1) + tail, l'[0].0, EncJson(l'[0].1) + tail');
      JsonPrefixFree(l[0].1, tail, l'[0].1, tail');
      ParamsPrefixFree(l[1..], r, l'[1..], r');
    }
  }

  lemma {:induction false} ListingFits(m: map<Text, Json>)
    requires forall k :: k in m ==> |k| < U32_BOUND && FitsJson(m[k])
    ensures FitsListing(Listing(m))
    decreases m.Keys
  {
    if m != map[] {
      var k := MinKey(m.Keys);
      assert (m - {k}).Keys == m.Keys - {k};
      ListingFits(m - {k});
    }
  }

  /** Canonicalisation keeps keys, hence the order in which a map is listed. */
  lemma {:induction false} ListingCanon(m: map<Text, Json>)
    ensures CanonListing(Listing(m)) == Listing(CanonParams(m))
    decreases m.Keys
  {
    if m == map[] {
      assert CanonParams(m) == map[];
    } else {
      var k := MinKey(m.Keys);
      assert CanonParams(m).Keys == m.Keys;
      assert (m - {k}).Keys == m.Keys - {k};
      ListingCanon(m - {k});
      assert CanonParams(m - {k}) == CanonParams(m) - {k};
      assert Listing(m)[1..] == Listing(m - {k});
    }
  }

  /** A listing determines its map. */
  lemma {:induction false} ListingInjective(m: map<Text, Json>, m': map<Text, Json>)
    requires Listing(m) == Listing(m')
    ensures m == m'
    decreases m.Keys
  {
    if m == map[] || m' == map[] {
      assert |m| == |m'| == 0;
      assert m.Keys == {} && m'.Keys == {};
    } else {
      var k := MinKey(m.Keys);
      ListingHead(m);
      ListingHead(m');
      ListingInjective(m - {k}, m' - {k});
      PutBack(m, k);
      PutBack(m', k);
    }
  }

  lemma ListingHead(m: map<Text, Json>)
    requires m != map[]
    ensures m.Keys != {} && (m - {MinKey(m.Keys)}).Keys == m.Keys - {MinKey(m.Keys)}
    ensures Listing(m) != [] && Listing(m)[0] == (MinKey(m.Keys), m[MinKey(m.Keys)])
    ensures Listing(m)[1..] == Listing(m - {MinKey(m.Keys)})
  {
    assert |m.Keys| == |m|;
  }

  lemma PutBack(m: map<Text, Json>, k: Text)
    requires k in m
    ensures m == (m - {k})[k := m[k]]
  {
  }

  lemma ItemHead(parse: AddressParser, a: ActionItem, r: seq<Byte>)
    ensures EncItem(parse, a) + r == EncBytes(a.name) + (EncBytes(CanonAddress(parse, a.address))
            + (U32(|a.params|) + (EncParams(Listing(a.params)) + r)))
  {
    var name, address, count := EncBytes(a.name), EncBytes(CanonAddress(parse, a.address)), U32(|a.params|);
    var params := EncParams(Listing(a.params));
    Assoc(name + address + count, params, r);
    Assoc(name + address, count, params + r);
    Assoc(name, address, count + (params + r));
  }

  lemma ItemPrefixFree(parse: AddressParser, a: ActionItem, r: seq<Byte>, b: ActionItem, r': seq<Byte>)
    requires FitsItem(parse, a) && FitsItem(parse, b)
    requires EncItem(parse, a) + r == EncItem(parse, b) + r'
    ensures CanonItem(parse, a) == CanonItem(parse, b) && r == r'
  {
    var la, lb := Listing(a.params), Listing(b.params);
    var pa, pb := EncParams(la) + r, EncParams(lb) + r';
    var ua, ub := U32(|a.params|) + pa, U32(|b.params|) + pb;
    var aa, ab := EncBytes(CanonAddress(parse, a.address)) + ua, EncBytes(CanonAddress(parse, b.address)) + ub;
    ItemHead(parse, a, r);
    ItemHead(parse, b, r');
    BytesPrefixFree(a.name, aa, b.name, ab);
    BytesPrefixFree(CanonAddress(parse, a.address), ua, CanonAddress(parse, b.address), ub);
    SplitEqual(U32(|a.params|), pa, U32(|b.params|), pb);
    U32Injective(|a.params|, |b.params|);
    ListingFits(a.params);
    ListingFits(b.params);
    ParamsPrefixFree(la, r, lb, r');
    ListingCanon(a.params);
    ListingCanon(b.params);
    ListingInjective(CanonParams(a.params), CanonParams(b.params));
  }

  lemma {:induction false} ItemsPrefixFree(parse: AddressParser, a: seq<ActionItem>, r: seq<Byte>, b: seq<ActionItem>,
                                           r': seq<Byte>)
    requires |a| == |b|
    requires forall i :: 0 <= i < |a| ==> FitsItem(parse, a[i]) && FitsItem(parse, b[i])
    requires EncItems(parse, a) + r == EncItems(parse, b) + r'
    ensures CanonQuota(parse, a) == CanonQuota(parse, b) && r == r'
  {
    if a == [] {
      assert EncItems(parse, a) + r == r && EncItems(parse, b) + r' == r';
    } else {
      var ta, tb := EncItems(parse, a[1..]) + r, EncItems(parse, b[1..]) + r';
      Assoc(EncItem(parse, a[0]), EncItems(parse, a[1..]), r);
      Assoc(EncItem(parse, b[0]), EncItems(parse, b[1..]), r');
      ItemPrefixFree(parse, a[0], ta, b[0], tb);
      ItemsPrefixFree(parse, a[1..], r, b[1..], r');
    }
  }

  // Converse direction: the encoding reads its input only up to canonical form.

  lemma {:induction false} LowerIdempotent(t: Text)
    ensures Lower(Lower(t)) == Lower(t)
  {
  }

  lemma {:induction false} JsonEncodesCanon(v: Json)
    ensures EncJson(CanonJson(v)) == EncJson(v)
    decreases v, 0
  {
    match v
    case Str(t) => LowerIdempotent(t);
    case Other(t) => LowerIdempotent(t);
    case Arr(xs) => JsonsEncodeCanon(xs);
  }

  lemma {:induction false} JsonsEncodeCanon(xs: seq<Json>)
    ensures EncJsons(CanonJsons(xs)) == EncJsons(xs)
    decreases xs, 1
  {
    if xs != [] {
      JsonEncodesCanon(xs[0]);
      JsonsEncodeCanon(xs[1..]);
    }
  }

  lemma {:induction false} ParamsEncodeCanon(l: seq<(Text, Json)>)
    ensures EncParams(CanonListing(l)) == EncParams(l)
  {
    if l != [] {
      JsonEncodesCanon(l[0].1);
      ParamsEncodeCanon(l[1..]);
    }
  }

  lemma ItemEncodesCanon(parse: AddressParser, a: ActionItem, b: ActionItem)
    requires CanonItem(parse, a) == CanonItem(parse, b)
    ensures EncItem(parse, a) == EncItem(parse, b)
  {
    ListingCanon(a.params);
    ListingCanon(b.params);
    ParamsEncodeCanon(Listing(a.params));
    ParamsEncodeCanon(Listing(b.params));
    assert |CanonParams(a.params)| == |a.params| by { assert CanonParams(a.params).Keys == a.params.Keys; }
    assert |CanonParams(b.params)| == |b.params| by { assert CanonParams(b.params).Keys == b.params.Keys; }
  }

  lemma {:induction false} ItemsEncodeCanon(parse: AddressParser, a: seq<ActionItem>, b: seq<ActionItem>)
    requires CanonQuota(parse, a) == CanonQuota(parse, b)
    ensures EncItems(parse, a) == EncItems(parse, b)
  {
    assert |a| == |CanonQuota(parse, a)| == |b|;
    if a != [] {
      assert CanonQuota(parse, a)[0] == CanonQuota(parse, b)[0];
      assert CanonQuota(parse, a)[1..] == CanonQuota(parse, b)[1..];
      ItemEncodesCanon(parse, a[0], b[0]);
      ItemsEncodeCanon(parse, a[1..], b[1..]);
    }
  }

  // ---------------------------------------------------------------------------------------------
  // Main results
  // ---------------------------------------------------------------------------------------------

  /** No buffer is a proper prefix of another, and a shared prefix already fixes the quota list. */
  lemma EncodingPrefixFree(parse: AddressParser, a: Actions, b: Actions)
    requires Fits(parse, QuotaOf(a)) && Fits(parse, QuotaOf(b))
    requires Encode(parse, a) <= Encode(parse, b)
    ensures Encode(parse, a) == Encode(parse, b)
    ensures CanonQuota(parse, QuotaOf(a)) == CanonQuota(parse, QuotaOf(b))
  {
    var qa, qb := QuotaOf(a), QuotaOf(b);
    var rest := CutPrefix(|qa|, EncItems(parse, qa), |qb|, EncItems(parse, qb));
    ItemsPrefixFree(parse, qa, rest, qb, []);
    assert EncItems(parse, qa) + rest == EncItems(parse, qa);
  }

  /** Equal buffers are exactly equal quota lists, up to ASCII case of values and address spelling. */
  lemma EncodingIdentifiesQuota(parse: AddressParser, a: Actions, b: Actions)
    requires Fits(parse, QuotaOf(a)) && Fits(parse, QuotaOf(b))
    ensures Encode(parse, a) == Encode(parse, b)
       <==> CanonQuota(parse, QuotaOf(a)) == CanonQuota(parse, QuotaOf(b))
    ensures Encode(parse, a) == Encode(parse, b) <==> SameQuota(parse, QuotaOf(a), QuotaOf(b))
  {
    SameQuotaIff(parse, QuotaOf(a), QuotaOf(b));
    if Encode(parse, a) == Encode(parse, b) {
      EncodingPrefixFree(parse, a, b);
    }
    if CanonQuota(parse, QuotaOf(a)) == CanonQuota(parse, QuotaOf(b)) {
      ItemsEncodeCanon(parse, QuotaOf(a), QuotaOf(b));
    }
  }

  /** Exactly when two address spellings encode alike. The last case is the one the parser does not
      rule out: an unparseable 20-byte spelling can stand for another address's raw bytes. */
  lemma AddressesEncodeAlike(parse: AddressParser, a: Text, b: Text)
    requires |CanonAddress(parse, a)| < U32_BOUND && |CanonAddress(parse, b)| < U32_BOUND
    ensures EncBytes(CanonAddress(parse, a)) == EncBytes(CanonAddress(parse, b)) <==> SameAddress(parse, a, b)
  {
    LowerIdentifies(a, b);
    if EncBytes(CanonAddress(parse, a)) == EncBytes(CanonAddress(parse, b)) {
      BytesPrefixFree(CanonAddress(parse, a), [], CanonAddress(parse, b), []);
    }
  }

  /** The text of twenty times the letter a, and the hexadecimal address text of those twenty bytes. */
  function TwentyLetters(): Address {
    seq(20, _ => 97)
  }

  function LettersInHex(): (t: Text)
    ensures |t| == 42
  {
    [48, 120] + seq(40, i => if i % 2 == 0 then 54 else 49)
  }

  /** A spelling of twenty bytes that does not parse encodes like the address made of those very bytes. */
  lemma TwentyByteSpellingCollides(parse: AddressParser)
    requires parse(LettersInHex()) == Some(TwentyLetters()) && parse(TwentyLetters()).None?
    ensures EncBytes(CanonAddress(parse, LettersInHex())) == EncBytes(CanonAddress(parse, TwentyLetters()))
  {
    assert Lower(TwentyLetters()) == TwentyLetters();
  }

  /** Some parser reads the one and rejects the other. */
  lemma SuchParserExists()
    ensures exists parse: AddressParser ::
            parse(LettersInHex()) == Some(TwentyLetters()) && parse(TwentyLetters()).None?
  {
    var parse: AddressParser := t => if t == LettersInHex() then Some(TwentyLetters()) else None;
    assert parse(LettersInHex()) == Some(TwentyLetters()) && parse(TwentyLetters()).None?;
  }

  /** The u32 length prefix is what the bound protects: past it, prefix-freedom is lost. */
  lemma LengthTruncationBreaksPrefixFreedom(t: Text)
    requires |t| == U32_BOUND
    ensures EncJson(Str([])) <= EncJson(Str(t)) && CanonJson(Str([])) != CanonJson(Str(t))
  {
    assert U32(U32_BOUND) == U32(0) == [0, 0, 0, 0];
    assert EncJson(Str([])) == [0] + U32(0) + [];
    assert EncJson(Str(t)) == [0] + U32(0) + Lower(t);
    assert |CanonJson(Str(t)).text| == U32_BOUND;
  }
}
