/** Conflict profiles of submit groups: which nonce and quota reservations a block height touches,
    and whether the height must be submitted alone. */
module SubmitProfile {
  import opened Prelude
  import opened Wire

  /** Library parsers: every result holds for any pair of them. */
  datatype Parsers = Parsers(address: Text -> Option<Address>, uint: Text -> bool)

  datatype SubmitEntry = SubmitEntry(hash: nat, generation: nat, origin: Address, nonce: nat, actions: Actions)

  type NonceKey = (Address, nat)
  type QuotaKey = (Address, Address)

  datatype Profile = Profile(nonceKeys: set<NonceKey>, quotaKeys: set<QuotaKey>, exclusive: bool)

  const FROM: Text := [102, 114, 111, 109]
  const TO: Text := [116, 111]
  const VALUE: Text := [118, 97, 108, 117, 101]
  const VALUES: Text := [118, 97, 108, 117, 101, 115]
  const OPERATOR: Text := [111, 112, 101, 114, 97, 116, 111, 114]
  const ID: Text := [105, 100]
  const IDS: Text := [105, 100, 115]

  function AddressParam(p: Parsers, params: map<Text, Json>, name: Text): Option<Address> {
    if name in params && params[name].Str? then p.address(params[name].text) else None
  }

  predicate UintParam(p: Parsers, params: map<Text, Json>, name: Text) {
    name in params && params[name].Str? && p.uint(params[name].text)
  }

  predicate AllUints(p: Parsers, xs: seq<Json>) {
    forall i :: 0 <= i < |xs| ==> xs[i].Str? && p.uint(xs[i].text)
  }

  predicate MatchingUintArrays(p: Parsers, params: map<Text, Json>, left: Text, right: Text) {
    && left in params && params[left].Arr?
    && right in params && params[right].Arr?
    && params[left].items != []
    && |params[left].items| == |params[right].items|
    && AllUints(p, params[left].items)
    && AllUints(p, params[right].items)
  }

  /** The recipient, if the parameters have the shape of a known token transfer event. */
  function KnownQuotaRecipient(p: Parsers, params: map<Text, Json>): Option<Address> {
    var to := AddressParam(p, params, TO);
    if to.None? then None
    else
      var known :=
        if |params| == 3 then
          AddressParam(p, params, FROM).Some? && UintParam(p, params, VALUE)
        else if |params| == 5 && AddressParam(p, params, OPERATOR).Some? && AddressParam(p, params, FROM).Some? then
          (UintParam(p, params, ID) && UintParam(p, params, VALUE)) || MatchingUintArrays(p, params, IDS, VALUES)
        else false;
      if known then to else None
  }

  predicate IsAddress(p: Parsers, v: Json) {
    v.Str? && p.address(v.text).Some?
  }

  predicate IsUint(p: Parsers, v: Json) {
    v.Str? && p.uint(v.text)
  }

  /** The ERC-20 event `Transfer`, with no parameter besides its own. */
  ghost predicate IsTransfer(p: Parsers, params: map<Text, Json>) {
    && params.Keys == {FROM, TO, VALUE}
    && IsAddress(p, params[FROM]) && IsAddress(p, params[TO]) && IsUint(p, params[VALUE])
  }

  /** The ERC-1155 event `TransferSingle`. */
  ghost predicate IsTransferSingle(p: Parsers, params: map<Text, Json>) {
    && params.Keys == {OPERATOR, FROM, TO, ID, VALUE}
    && IsAddress(p, params[OPERATOR]) && IsAddress(p, params[FROM]) && IsAddress(p, params[TO])
    && IsUint(p, params[ID]) && IsUint(p, params[VALUE])
  }

  /** The ERC-1155 event `TransferBatch`: as many values as ids, and at least one. */
  ghost predicate IsTransferBatch(p: Parsers, params: map<Text, Json>) {
    && params.Keys == {OPERATOR, FROM, TO, IDS, VALUES}
    && IsAddress(p, params[OPERATOR]) && IsAddress(p, params[FROM]) && IsAddress(p, params[TO])
    && params[IDS].Arr? && params[VALUES].Arr? && |params[IDS].items| == |params[VALUES].items| > 0
    && (forall v :: v in params[IDS].items ==> IsUint(p, v))
    && (forall v :: v in params[VALUES].items ==> IsUint(p, v))
  }

  ghost predicate IsKnownEvent(p: Parsers, params: map<Text, Json>) {
    IsTransfer(p, params) || IsTransferSingle(p, params) || IsTransferBatch(p, params)
  }

  /** The recipient is known iff the parameters are exactly those of one of three token events, and then it is the
      address under "to". */
  lemma KnownRecipientShapes(p: Parsers, params: map<Text, Json>)
    ensures KnownQuotaRecipient(p, params).Some? <==> IsKnownEvent(p, params)
    ensures IsKnownEvent(p, params) ==> KnownQuotaRecipient(p, params) == p.address(params[TO].text)
  {
    if KnownQuotaRecipient(p, params).Some? { KnownHasShape(p, params); }
    if IsKnownEvent(p, params) { ShapeIsKnown(p, params); }
  }

  lemma ShapeIsKnown(p: Parsers, params: map<Text, Json>)
    requires IsKnownEvent(p, params)
    ensures KnownQuotaRecipient(p, params) == p.address(params[TO].text)
  {
    DistinctNames();
    assert |params.Keys| == |params|;
    if IsTransferBatch(p, params) {
      AllUintsIff(p, params[IDS].items);
      AllUintsIff(p, params[VALUES].items);
    }
  }

  lemma AllUintsIff(p: Parsers, xs: seq<Json>)
    ensures AllUints(p, xs) <==> forall v :: v in xs ==> IsUint(p, v)
  {
    assert forall i :: 0 <= i < |xs| ==> xs[i] in xs;
  }

  lemma KnownHasShape(p: Parsers, params: map<Text, Json>)
    requires KnownQuotaRecipient(p, params).Some?
    ensures IsKnownEvent(p, params)
  {
    DistinctNames();
    assert |params.Keys| == |params|;
    if |params| == 3 {
      SubsetOfSameSize({FROM, TO, VALUE}, params.Keys);
    } else if UintParam(p, params, ID) && UintParam(p, params, VALUE) {
      SubsetOfSameSize({OPERATOR, FROM, TO, ID, VALUE}, params.Keys);
    } else {
      SubsetOfSameSize({OPERATOR, FROM, TO, IDS, VALUES}, params.Keys);
      AllUintsIff(p, params[IDS].items);
      AllUintsIff(p, params[VALUES].items);
    }
  }

  lemma DistinctNames()
    ensures |{FROM, TO, VALUE}| == 3
    ensures |{OPERATOR, FROM, TO, ID, VALUE}| == 5
    ensures |{OPERATOR, FROM, TO, IDS, VALUES}| == 5
  {
    assert |FROM| == 4 && |TO| == 2 && |VALUE| == 5 && |VALUES| == 6 && |OPERATOR| == 8 && |ID| == 2 && |IDS| == 3;
    assert TO[0] != ID[0];
  }

  /** The reservation a quota item draws on, when its recipient and token are known. */
  function ItemKey(p: Parsers, item: ActionItem): Option<QuotaKey> {
    var to := KnownQuotaRecipient(p, item.params);
    var token := p.address(item.address);
    if to.Some? && token.Some? then Some((to.value, token.value)) else None
  }

  /** The key of an item is its recipient, the address under "to", and its token, the address of the log; there is
      one iff the event is known and the token address can be read. */
  lemma ItemKeyIs(p: Parsers, item: ActionItem, recipient: Address, token: Address)
    ensures ItemKey(p, item) == Some((recipient, token)) <==>
            && IsKnownEvent(p, item.params)
            && p.address(item.params[TO].text) == Some(recipient) && p.address(item.address) == Some(token)
    ensures ItemKey(p, item).Some? <==> IsKnownEvent(p, item.params) && p.address(item.address).Some?
  {
    KnownRecipientShapes(p, item.params);
  }

  /** Whether everything the transaction asks RCS to audit is a quota reservation with a known key. */
  ghost predicate FullyKnown(p: Parsers, e: SubmitEntry) {
    && e.actions != map[]
    && forall t :: t in e.actions ==> KnownType(p, e, t)
  }

  ghost predicate KnownType(p: Parsers, e: SubmitEntry, t: Text)
    requires t in e.actions
  {
    && t == QUOTA
    && e.actions[t] != []
    && forall i :: 0 <= i < |e.actions[t]| ==> ItemKey(p, e.actions[t][i]).Some?
  }

  /** A quota key some item of the entry reserves. */
  ghost predicate Reserves(p: Parsers, e: SubmitEntry, key: QuotaKey) {
    QUOTA in e.actions && exists i :: 0 <= i < |e.actions[QUOTA]| && ItemKey(p, e.actions[QUOTA][i]) == Some(key)
  }

  ghost predicate NonceUsed(entries: seq<SubmitEntry>, key: NonceKey) {
    exists i :: 0 <= i < |entries| && key == (entries[i].origin, entries[i].nonce)
  }

  ghost predicate QuotaReserved(p: Parsers, entries: seq<SubmitEntry>, key: QuotaKey) {
    exists i :: 0 <= i < |entries| && Reserves(p, entries[i], key)
  }

  ghost predicate MustRunAlone(p: Parsers, entries: seq<SubmitEntry>) {
    exists i :: 0 <= i < |entries| && !FullyKnown(p, entries[i])
  }

  lemma QuotaReservedStep(p: Parsers, entries: seq<SubmitEntry>, e: SubmitEntry, key: QuotaKey)
    ensures QuotaReserved(p, entries + [e], key) <==> QuotaReserved(p, entries, key) || Reserves(p, e, key)
  {
    var all := entries + [e];
    if i :| 0 <= i < |entries| && Reserves(p, entries[i], key) { assert all[i] == entries[i]; }
    assert all[|entries|] == e;
  }

  lemma MustRunAloneStep(p: Parsers, entries: seq<SubmitEntry>, e: SubmitEntry)
    ensures MustRunAlone(p, entries + [e]) <==> MustRunAlone(p, entries) || !FullyKnown(p, e)
  {
    var all := entries + [e];
    if i :| 0 <= i < |entries| && !FullyKnown(p, entries[i]) { assert all[i] == entries[i]; }
    assert all[|entries|] == e;
  }

  /** Exactly the keys the entries give rise to, and whether one of them must run alone. */
  ghost predicate ProfileOf(p: Parsers, entries: seq<SubmitEntry>, nonceKeys: set<NonceKey>, quotaKeys: set<QuotaKey>,
                            exclusive: bool) {
    && (forall key :: key in nonceKeys <==> NonceUsed(entries, key))
    && (forall key :: key in quotaKeys <==> QuotaReserved(p, entries, key))
    && (exclusive <==> MustRunAlone(p, entries))
  }

  lemma NonceUsedStep(entries: seq<SubmitEntry>, e: SubmitEntry, key: NonceKey)
    ensures NonceUsed(entries + [e], key) <==> NonceUsed(entries, key) || key == (e.origin, e.nonce)
  {
    var all := entries + [e];
    if i :| 0 <= i < |entries| && key == (entries[i].origin, entries[i].nonce) { assert all[i] == entries[i]; }
    assert all[|entries|] == e;
  }

  lemma ProfileStep(p: Parsers, entries: seq<SubmitEntry>, e: SubmitEntry, nonceKeys: set<NonceKey>,
                    quotaKeys: set<QuotaKey>,
                    exclusive: bool, keys: set<QuotaKey>, alone: bool)
    requires ProfileOf(p, entries, nonceKeys, quotaKeys, exclusive)
    requires (forall key :: key in keys <==> Reserves(p, e, key)) && (alone <==> !FullyKnown(p, e))
    ensures ProfileOf(p, entries + [e], nonceKeys + {(e.origin, e.nonce)}, quotaKeys + keys, exclusive || alone)
  {
    forall key ensures NonceUsed(entries + [e], key) <==> key in nonceKeys + {(e.origin, e.nonce)} {
      NonceUsedStep(entries, e, key);
    }
    forall key ensures QuotaReserved(p, entries + [e], key) <==> key in quotaKeys + keys {
      QuotaReservedStep(p, entries, e, key);
    }
    MustRunAloneStep(p, entries, e);
  }

  /** The group's nonce keys, its known quota keys, and whether any entry is not fully known. */
  method ProfileEntries(p: Parsers, entries: seq<SubmitEntry>) returns (profile: Profile)
    ensures forall key :: key in profile.nonceKeys <==> NonceUsed(entries, key)
    ensures forall key :: key in profile.quotaKeys <==> QuotaReserved(p, entries, key)
    ensures profile.exclusive <==> MustRunAlone(p, entries)
  {
    var nonceKeys: set<NonceKey>, quotaKeys: set<QuotaKey>, exclusive := {}, {}, false;
    var n := 0;
    while n < |entries|
      invariant 0 <= n <= |entries|
      invariant ProfileOf(p, entries[..n], nonceKeys, quotaKeys, exclusive)
    {
      var keys, alone := ProfileEntry(p, entries[n]);
      ProfileStep(p, entries[..n], entries[n], nonceKeys, quotaKeys, exclusive, keys, alone);
      assert entries[..n + 1] == entries[..n] + [entries[n]];
      nonceKeys := nonceKeys + {(entries[n].origin, entries[n].nonce)};
      quotaKeys, exclusive := quotaKeys + keys, exclusive || alone;
      n := n + 1;
    }
    assert entries[..n] == entries;
    profile := Profile(nonceKeys, quotaKeys, exclusive);
  }

  /** One turn of the loop over entries: walks the entry's actions in any order. */
  method ProfileEntry(p: Parsers, e: SubmitEntry) returns (keys: set<QuotaKey>, alone: bool)
    ensures forall key :: key in keys <==> Reserves(p, e, key)
    ensures alone <==> !FullyKnown(p, e)
  {
    keys, alone := {}, e.actions == map[];
    var remaining := e.actions.Keys;
    while remaining != {}
      invariant remaining <= e.actions.Keys
      invariant forall key :: key in keys <==> QUOTA !in remaining && Reserves(p, e, key)
      invariant alone <==>
        || e.actions == map[]
        || exists t :: t in e.actions.Keys - remaining && !KnownType(p, e, t)
      decreases remaining
    {
      var t :| t in remaining;
      remaining := remaining - {t};
      if t != QUOTA || e.actions[t] == [] {
        alone := true;
        assert !KnownType(p, e, t);
      } else {
        var more, odd := ProfileItems(p, e.actions[t]);
        keys, alone := keys + more, alone || odd;
        assert odd <==> !KnownType(p, e, t);
      }
    }
    assert e.actions.Keys - remaining == e.actions.Keys;
  }

  method ProfileItems(p: Parsers, items: seq<ActionItem>) returns (keys: set<QuotaKey>, odd: bool)
    ensures forall key :: key in keys <==> exists i :: 0 <= i < |items| && ItemKey(p, items[i]) == Some(key)
    ensures odd <==> exists i :: 0 <= i < |items| && ItemKey(p, items[i]).None?
  {
    keys, odd := {}, false;
    for n := 0 to |items|
      invariant forall key :: key in keys <==> exists i :: 0 <= i < n && ItemKey(p, items[i]) == Some(key)
      invariant odd <==> exists i :: 0 <= i < n && ItemKey(p, items[i]).None?
    {
      var to := KnownQuotaRecipient(p, items[n].params);
      if to.None? { odd := true; continue; }
      var token := p.address(items[n].address);
      if token.None? { odd := true; continue; }
      assert ItemKey(p, items[n]) == Some((to.value, token.value));
      keys := keys + {(to.value, token.value)};
    }
  }
}
