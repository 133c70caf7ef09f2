/** ProfileBuilder: facts are offered one by one and merged by rank; conflicts are recorded. */
module Evidence {
  import opened Results

  datatype Kind = UserExplicit | MaxDocx | ResumePdf | VerifiedHistory | LegacyProfile | OtherKind

  datatype Value = Nothing | Text(text: string) | Flag(flag: bool) | Number(number: int) | List(items: seq<string>)

  datatype Offer = Offer(key: string, value: Value, kind: Kind, confidence: real, confirmed: bool,
                         verified: Option<string>)

  /** The kinds stand for the evidence references. */
  datatype ProfileField = ProfileField(value: Value, sources: seq<Kind>, confidence: real, confirmed: bool,
                                       verified: Option<string>)

  datatype Conflict = Conflict(key: string, existing: Value, incoming: Value, existingSources: seq<Kind>,
                               incomingSource: Kind)

  datatype Book = Book(fields: map<string, ProfileField>, conflicts: seq<Conflict>)

  datatype Rank = Rank(priority: int, confidence: real)

  predicate Below(a: Rank, b: Rank) {
    a.priority < b.priority || (a.priority == b.priority && a.confidence < b.confidence)
  }

  predicate AtLeast(a: Rank, b: Rank) {
    !Below(a, b)
  }

  /** _evidence_priority */
  function EvidencePriority(kind: Kind, confirmed: bool): (p: int)
    ensures 100 <= p <= 500 && (p == 500 <==> kind == UserExplicit)
    ensures p >= EvidencePriority(kind, false)
  {
    match kind
    case UserExplicit => 500
    case MaxDocx => if confirmed then 420 else 400
    case ResumePdf => if confirmed then 420 else 400
    case VerifiedHistory => 300
    case LegacyProfile => 200
    case OtherKind => 100
  }

  /** _field_priority */
  function FieldPriority(sources: seq<Kind>, confirmed: bool): (p: int)
    ensures forall k | k in sources :: EvidencePriority(k, confirmed) <= p
    ensures p == 500 <==> UserExplicit in sources
    ensures 0 <= p <= 500
  {
    if sources == [] then 0
    else
      var last := EvidencePriority(sources[|sources| - 1], confirmed);
      var rest := FieldPriority(sources[..|sources| - 1], confirmed);
      assert forall k | k in sources :: k == sources[|sources| - 1] || k in sources[..|sources| - 1];
      if last > rest then last else rest
  }

  function StoredRank(f: ProfileField): Rank {
    Rank(FieldPriority(f.sources, f.confirmed), f.confidence)
  }

  function OfferedRank(o: Offer): Rank {
    Rank(EvidencePriority(o.kind, o.confirmed), o.confidence)
  }

  /** None and the empty string are not offered at all. */
  predicate Offered(o: Offer) {
    o.value != Nothing && o.value != Text("")
  }

  function Incoming(o: Offer): ProfileField {
    ProfileField(o.value, [o.kind], o.confidence, o.confirmed, o.verified)
  }

  function Joined(f: ProfileField, o: Offer): ProfileField {
    ProfileField(f.value, f.sources + [o.kind], if f.confidence >= o.confidence then f.confidence else o.confidence,
                 f.confirmed || o.confirmed, if f.verified.Some? then f.verified else o.verified)
  }

  /** add_field as a function. */
  function Merge(b: Book, o: Offer): Book {
    if !Offered(o) then b
    else if o.key !in b.fields then b.(fields := b.fields[o.key := Incoming(o)])
    else if b.fields[o.key].value == o.value then b.(fields := b.fields[o.key := Joined(b.fields[o.key], o)])
    else
      var f := b.fields[o.key];
      Book(if Below(StoredRank(f), OfferedRank(o)) then b.fields[o.key := Incoming(o)] else b.fields,
           b.conflicts + [Conflict(o.key, f.value, o.value, f.sources, o.kind)])
  }

  function AfterAll(offers: seq<Offer>): Book {
    if offers == [] then Book(map[], [])
    else Merge(AfterAll(offers[..|offers| - 1]), offers[|offers| - 1])
  }

  predicate HasConflict(b: Book, key: string) {
    exists c | c in b.conflicts :: c.key == key
  }

  /** has_unresolved_conflict on the built profile. */
  predicate HasUnresolvedConflict(b: Book, key: string) {
    HasConflict(b, key) && !(key in b.fields && UserExplicit in b.fields[key].sources)
  }

  // ----- the builder

  class ProfileBuilder {
    var fields: map<string, ProfileField>
    var conflicts: seq<Conflict>

    constructor ()
      ensures Now() == Book(map[], [])
    {
      fields, conflicts := map[], [];
    }

    function Now(): Book
      reads this
    {
      Book(fields, conflicts)
    }

    method AddField(o: Offer)
      modifies this
      ensures Now() == Merge(old(Now()), o)
    {
      if o.value == Nothing || o.value == Text("") { return; }
      if o.key !in fields {
        fields := fields[o.key := Incoming(o)];
        return;
      }
      var existing := fields[o.key];
      if existing.value == o.value {
        var sources := existing.sources + [o.kind];
        var confidence := if existing.confidence >= o.confidence then existing.confidence else o.confidence;
        var verified := if existing.verified.Some? then existing.verified else o.verified;
        fields := fields[o.key := ProfileField(existing.value, sources, confidence,
                                               existing.confirmed || o.confirmed, verified)];
        return;
      }
      conflicts := conflicts + [Conflict(o.key, existing.value, o.value, existing.sources, o.kind)];
      if Below(StoredRank(existing), OfferedRank(o)) { fields := fields[o.key := Incoming(o)]; }
    }

    /** Any sequence of imports into a new builder: nothing else is recorded, a key has a conflict exactly if two values
        were offered for it, and it is unresolved exactly if none of them came from the user. */
    method AddAll(offers: seq<Offer>)
      requires Now() == Book(map[], [])
      modifies this
      ensures Now() == AfterAll(offers)
      ensures forall key :: Honest(offers, Now(), key)
      ensures forall key :: HasConflict(Now(), key) <==> Disputed(offers, key)
      ensures forall key :: HasUnresolvedConflict(Now(), key) <==>
                              Disputed(offers, key) && !KindOffered(offers, key, UserExplicit)
    {
      hide Merge, Honest, HasConflict, HasUnresolvedConflict, Disputed, KindOffered;
      for i := 0 to |offers|
        invariant Now() == AfterAll(offers[..i])
      {
        AddField(offers[i]);
        assert offers[..i + 1][..i] == offers[..i];
      }
      assert offers[..|offers|] == offers;
      hide AfterAll;
      forall key
        ensures Honest(offers, Now(), key) && (HasConflict(Now(), key) <==> Disputed(offers, key))
             && (HasUnresolvedConflict(Now(), key)
                 <==> Disputed(offers, key) && !KindOffered(offers, key, UserExplicit))
      {
        EveryOfferIsAccounted(offers, key);
        ConflictIff(offers, key);
        UnresolvedIff(offers, key);
      }
    }
  }

  // ----- all facts that were ever offered

  predicate IsOffer(o: Offer, key: string) {
    Offered(o) && o.key == key
  }

  predicate ValueOffered(offers: seq<Offer>, key: string, v: Value) {
    exists o | o in offers :: IsOffer(o, key) && o.value == v
  }

  predicate KindOffered(offers: seq<Offer>, key: string, k: Kind) {
    exists o | o in offers :: IsOffer(o, key) && o.kind == k
  }

  predicate InConflict(b: Book, key: string, v: Value) {
    exists c | c in b.conflicts :: c.key == key && (c.existing == v || c.incoming == v)
  }

  /** One offer is accounted for: it does not outrank the stored field, and its value is stored or in a conflict. */
  predicate Kept(b: Book, o: Offer) {
    && o.key in b.fields && AtLeast(StoredRank(b.fields[o.key]), OfferedRank(o))
    && (o.value == b.fields[o.key].value || InConflict(b, o.key, o.value))
  }

  /** The stored field and the conflicts of a key hold nothing but what was offered for it. */
  predicate Honest(offers: seq<Offer>, b: Book, key: string) {
    && (key in b.fields ==>
          && ValueOffered(offers, key, b.fields[key].value)
          && forall k | k in b.fields[key].sources :: KindOffered(offers, key, k))
    && (forall c | c in b.conflicts && c.key == key ::
          c.existing != c.incoming && ValueOffered(offers, key, c.existing) && ValueOffered(offers, key, c.incoming))
  }

  lemma BelowIsOrder(a: Rank, b: Rank, c: Rank)
    requires AtLeast(b, a) && AtLeast(c, b)
    ensures AtLeast(c, a)
  {
  }

  lemma JoinRaises(f: ProfileField, o: Offer)
    ensures AtLeast(StoredRank(Joined(f, o)), StoredRank(f)) && AtLeast(StoredRank(Joined(f, o)), OfferedRank(o))
  {
    var sources := f.sources + [o.kind];
    assert sources[..|f.sources|] == f.sources && sources[|f.sources|] == o.kind && o.kind in sources;
    PriorityGrows(f.sources, f.confirmed, f.confirmed || o.confirmed);
    assert EvidencePriority(o.kind, f.confirmed || o.confirmed) >= EvidencePriority(o.kind, o.confirmed);
  }

  lemma {:induction false} PriorityGrows(sources: seq<Kind>, before: bool, after: bool)
    requires before ==> after
    ensures FieldPriority(sources, before) <= FieldPriority(sources, after)
  {
    if sources != [] { PriorityGrows(sources[..|sources| - 1], before, after); }
  }

  /** Merging never lowers the stored rank of any key, and it reaches the rank of the offer. */
  lemma MergeRaises(b: Book, o: Offer, key: string)
    requires key in b.fields
    ensures key in Merge(b, o).fields
    ensures AtLeast(StoredRank(Merge(b, o).fields[key]), StoredRank(b.fields[key]))
  {
    if Offered(o) && o.key == key && b.fields[key].value == o.value { JoinRaises(b.fields[key], o); }
  }

  lemma MergeKeepsOffer(b: Book, o: Offer)
    requires Offered(o)
    ensures Kept(Merge(b, o), o)
  {
    var after := Merge(b, o);
    if o.key !in b.fields {
      assert [o.kind][..0] == [];
    } else if b.fields[o.key].value == o.value {
      JoinRaises(b.fields[o.key], o);
    } else {
      assert [o.kind][..0] == [];
      assert after.conflicts[|b.conflicts|] in after.conflicts;
    }
  }

  lemma MergeKeeps(b: Book, o: Offer, p: Offer)
    requires Kept(b, p)
    ensures Kept(Merge(b, o), p)
  {
    var after := Merge(b, o);
    MergeRaises(b, o, p.key);
    BelowIsOrder(OfferedRank(p), StoredRank(b.fields[p.key]), StoredRank(after.fields[p.key]));
    hide Below, AtLeast, StoredRank, OfferedRank;
    if InConflict(b, p.key, p.value) {
      var c: Conflict :| c in b.conflicts && c.key == p.key && (c.existing == p.value || c.incoming == p.value);
      assert c in after.conflicts;
    } else if after.fields[p.key].value != p.value {
      assert after.conflicts[|b.conflicts|] in after.conflicts;
    }
  }

  lemma OfferedGrows(offers: seq<Offer>, o: Offer, key: string, v: Value, k: Kind)
    ensures ValueOffered(offers, key, v) ==> ValueOffered(offers + [o], key, v)
    ensures KindOffered(offers, key, k) ==> KindOffered(offers + [o], key, k)
    ensures IsOffer(o, key) ==> ValueOffered(offers + [o], key, o.value) && KindOffered(offers + [o], key, o.kind)
  {
    assert o in offers + [o];
    if x: Offer :| x in offers && IsOffer(x, key) && x.value == v { assert x in offers + [o]; }
    if x: Offer :| x in offers && IsOffer(x, key) && x.kind == k { assert x in offers + [o]; }
  }

  lemma MergeHonest(offers: seq<Offer>, b: Book, o: Offer, key: string)
    requires Honest(offers, b, key)
    ensures Honest(offers + [o], Merge(b, o), key)
  {
    hide ValueOffered, KindOffered, StoredRank, OfferedRank, Below;
    var after, longer := Merge(b, o), offers + [o];
    forall v, k
      ensures ValueOffered(offers, key, v) ==> ValueOffered(longer, key, v)
      ensures KindOffered(offers, key, k) ==> KindOffered(longer, key, k)
    {
      OfferedGrows(offers, o, key, v, k);
    }
    OfferedGrows(offers, o, key, o.value, o.kind);
    if Offered(o) && o.key == key {
      assert IsOffer(o, key);
      if key in b.fields {
        assert Joined(b.fields[key], o).value == b.fields[key].value;
        SourcesJoin(b.fields[key], o);
      }
    }
  }

  lemma SourcesJoin(f: ProfileField, o: Offer)
    ensures forall k | k in Joined(f, o).sources :: k in f.sources || k == o.kind
  {
  }

  /** After any sequence of offers the stored rank of a key is at least every rank offered for it, every offered value
      is stored or recorded in a conflict, and nothing is stored or recorded that was not offered. */
  lemma {:induction false} EveryOfferIsAccounted(offers: seq<Offer>, key: string)
    ensures forall o | o in offers && IsOffer(o, key) :: Kept(AfterAll(offers), o)
    ensures Honest(offers, AfterAll(offers), key)
  {
    if offers != [] {
      var init, last := offers[..|offers| - 1], offers[|offers| - 1];
      EveryOfferIsAccounted(init, key);
      assert init + [last] == offers;
      hide Kept, Honest, Merge;
      MergeHonest(init, AfterAll(init), last, key);
      forall o | o in offers && IsOffer(o, key) ensures Kept(AfterAll(offers), o) {
        if o in init { MergeKeeps(AfterAll(init), last, o); } else { MergeKeepsOffer(AfterAll(init), last); }
      }
    }
  }

  ghost predicate Disputed(offers: seq<Offer>, key: string) {
    exists v, w :: v != w && ValueOffered(offers, key, v) && ValueOffered(offers, key, w)
  }

  /** A key has a conflict exactly when two different values were offered for it. */
  lemma ConflictIff(offers: seq<Offer>, key: string)
    ensures HasConflict(AfterAll(offers), key) <==> Disputed(offers, key)
  {
    var b := AfterAll(offers);
    EveryOfferIsAccounted(offers, key);
    hide AfterAll;
    if HasConflict(b, key) {
      var c: Conflict :| c in b.conflicts && c.key == key;
      assert ValueOffered(offers, key, c.existing) && ValueOffered(offers, key, c.incoming);
    }
    if Disputed(offers, key) {
      var v, w :| v != w && ValueOffered(offers, key, v) && ValueOffered(offers, key, w);
      var o: Offer :| o in offers && IsOffer(o, key) && o.value == v;
      var p: Offer :| p in offers && IsOffer(p, key) && p.value == w;
      assert Kept(b, o) && Kept(b, p);
      assert InConflict(b, key, v) || InConflict(b, key, w);
    }
  }

  /** The stored field rests on an explicit answer of the user exactly when one was offered. */
  lemma UserExplicitWins(offers: seq<Offer>, key: string)
    ensures KindOffered(offers, key, UserExplicit) <==>
            key in AfterAll(offers).fields && UserExplicit in AfterAll(offers).fields[key].sources
  {
    var b := AfterAll(offers);
    EveryOfferIsAccounted(offers, key);
    hide AfterAll;
    if KindOffered(offers, key, UserExplicit) {
      var o: Offer :| o in offers && IsOffer(o, key) && o.kind == UserExplicit;
      assert Kept(b, o);
      assert StoredRank(b.fields[key]).priority == 500;
    }
  }

  /** A key is unresolved exactly when two different values were offered and none of the offers was the user's. */
  lemma UnresolvedIff(offers: seq<Offer>, key: string)
    ensures HasUnresolvedConflict(AfterAll(offers), key) <==>
            Disputed(offers, key) && !KindOffered(offers, key, UserExplicit)
  {
    ConflictIff(offers, key);
    UserExplicitWins(offers, key);
    hide AfterAll, HasConflict, Disputed, KindOffered;
  }

  // ----- when the stored value is that of a highest single offer

  /** The value was offered for the key with a rank that no offer for the key exceeds. */
  predicate Highest(offers: seq<Offer>, key: string, v: Value) {
    exists o | o in offers ::
      && IsOffer(o, key) && o.value == v
      && forall p | p in offers && IsOffer(p, key) :: AtLeast(OfferedRank(o), OfferedRank(p))
  }

  /** The guard that lets a stored value keep an offer out although none of its own offers reaches that rank: repeated
      offers of one value have been added up. */
  predicate Shadows(offers: seq<Offer>, f: ProfileField, o: Offer) {
    && o.value != f.value && AtLeast(StoredRank(f), OfferedRank(o))
    && forall p | p in offers && IsOffer(p, o.key) && p.value == f.value :: Below(OfferedRank(p), OfferedRank(o))
  }

  /** The new offer is stored over everything, joins its own value, or is kept out by an offer of the stored value. */
  lemma StaysHighest(offers: seq<Offer>, o: Offer, f: ProfileField)
    requires IsOffer(o, o.key) && Highest(offers, o.key, f.value) && !Shadows(offers, f, o)
    requires forall p | p in offers && IsOffer(p, o.key) :: AtLeast(StoredRank(f), OfferedRank(p))
    ensures Highest(offers + [o], o.key,
                    if o.value != f.value && Below(StoredRank(f), OfferedRank(o)) then o.value else f.value)
  {
    var longer := offers + [o];
    var best: Offer :| best in offers && IsOffer(best, o.key) && best.value == f.value
                       && forall p | p in offers && IsOffer(p, o.key) :: AtLeast(OfferedRank(best), OfferedRank(p));
    assert o in longer && best in longer;
    forall p | p in longer ensures p in offers || p == o {}
    hide StoredRank, OfferedRank, Below;
    var mine, his, stored := OfferedRank(o), OfferedRank(best), StoredRank(f);
    if o.value != f.value && Below(stored, mine) {
      forall p | p in longer && IsOffer(p, o.key) ensures AtLeast(mine, OfferedRank(p)) {
        RankIsOrder(OfferedRank(p), stored, mine);
      }
    } else if Below(his, mine) {
      forall p | p in offers && IsOffer(p, o.key) && p.value == f.value ensures Below(OfferedRank(p), mine) {
        RankIsOrder(OfferedRank(p), his, mine);
      }
      forall p | p in longer && IsOffer(p, o.key) ensures AtLeast(mine, OfferedRank(p)) {
        RankIsOrder(OfferedRank(p), his, mine);
      }
    } else {
      assert forall p | p in longer && IsOffer(p, o.key) :: AtLeast(his, OfferedRank(p));
    }
  }

  lemma RankIsOrder(a: Rank, b: Rank, c: Rank)
    ensures AtLeast(b, a) && Below(b, c) ==> Below(a, c)
    ensures AtLeast(c, c) && (Below(a, c) ==> AtLeast(c, a))
  {
  }

  lemma ShadowedIsNotHighest(offers: seq<Offer>, o: Offer, f: ProfileField)
    requires IsOffer(o, o.key) && Shadows(offers, f, o)
    ensures !Highest(offers + [o], o.key, f.value)
  {
    assert o in offers + [o];
    forall p | p in offers + [o] && IsOffer(p, o.key) && p.value == f.value
      ensures Below(OfferedRank(p), OfferedRank(o))
    {
      assert p in offers;
    }
  }

  /** One offer keeps the stored value that of a highest single offer exactly if the stored field does not shadow it. */
  lemma HighestStaysIff(offers: seq<Offer>, o: Offer)
    requires Offered(o) && o.key in AfterAll(offers).fields
    requires Highest(offers, o.key, AfterAll(offers).fields[o.key].value)
    ensures o.key in AfterAll(offers + [o]).fields
    ensures Highest(offers + [o], o.key, AfterAll(offers + [o]).fields[o.key].value)
            <==> !Shadows(offers, AfterAll(offers).fields[o.key], o)
  {
    var b := AfterAll(offers);
    var f := b.fields[o.key];
    assert (offers + [o])[..|offers|] == offers;
    assert AfterAll(offers + [o]) == Merge(b, o);
    EveryOfferIsAccounted(offers, o.key);
    hide AfterAll, StoredRank, OfferedRank, Below, Highest, Honest;
    assert forall p | p in offers && IsOffer(p, o.key) :: Kept(b, p);
    if Shadows(offers, f, o) {
      ShadowedIsNotHighest(offers, o, f);
    } else {
      StaysHighest(offers, o, f);
    }
  }

  /** No value is offered twice for the key. */
  predicate OfferedOnce(offers: seq<Offer>, key: string) {
    forall i, j | 0 <= i < j < |offers| && IsOffer(offers[i], key) && IsOffer(offers[j], key) ::
      offers[i].value != offers[j].value
  }

  /** The first of the highest-ranked offers for the key. */
  predicate FirstHighest(offers: seq<Offer>, key: string, i: int) {
    && 0 <= i < |offers| && IsOffer(offers[i], key)
    && (forall j | 0 <= j < |offers| && IsOffer(offers[j], key) ::
          AtLeast(OfferedRank(offers[i]), OfferedRank(offers[j])))
    && (forall j | 0 <= j < i && IsOffer(offers[j], key) :: Below(OfferedRank(offers[j]), OfferedRank(offers[i])))
  }

  lemma SingleRank(o: Offer)
    ensures StoredRank(Incoming(o)) == OfferedRank(o)
  {
    assert [o.kind][..0] == [] && FieldPriority([], o.confirmed) == 0;
    assert FieldPriority([o.kind], o.confirmed) == EvidencePriority(o.kind, o.confirmed);
  }

  /** If no value is offered twice for a key, the first of its highest-ranked offers is stored, whatever the order. */
  lemma {:induction false} FirstHighestIsStored(offers: seq<Offer>, key: string) returns (i: int)
    requires OfferedOnce(offers, key) && key in AfterAll(offers).fields
    ensures FirstHighest(offers, key, i) && AfterAll(offers).fields[key] == Incoming(offers[i])
  {
    var n := |offers| - 1;
    var init, last := offers[..n], offers[n];
    assert OfferedOnce(init, key) && init + [last] == offers;
    EveryOfferIsAccounted(init, key);
    hide Kept, Honest;
    if !IsOffer(last, key) {
      i := FirstHighestIsStored(init, key);
      LaterIsNotHigher(init, last, key, i);
    } else if key !in AfterAll(init).fields {
      i := n;
      NothingBefore(init, key);
      FirstOffer(init, last, key);
    } else {
      i := FirstHighestIsStored(init, key);
      SingleRank(init[i]);
      hide StoredRank, OfferedRank, AfterAll, Incoming;
      assert last.value != offers[i].value;
      if Below(OfferedRank(init[i]), OfferedRank(last)) {
        NewHighest(init, last, key, i);
        i := n;
      } else {
        LaterIsNotHigher(init, last, key, i);
      }
    }
  }

  lemma LaterIsNotHigher(init: seq<Offer>, last: Offer, key: string, i: int)
    requires FirstHighest(init, key, i) && (IsOffer(last, key) ==> !Below(OfferedRank(init[i]), OfferedRank(last)))
    ensures FirstHighest(init + [last], key, i)
  {
    hide OfferedRank, Below;
    assert forall j | 0 <= j < |init| :: (init + [last])[j] == init[j];
  }

  lemma NewHighest(init: seq<Offer>, last: Offer, key: string, i: int)
    requires FirstHighest(init, key, i) && IsOffer(last, key) && Below(OfferedRank(init[i]), OfferedRank(last))
    ensures FirstHighest(init + [last], key, |init|)
  {
    var offers := init + [last];
    hide OfferedRank, Below;
    forall j | 0 <= j < |offers| && IsOffer(offers[j], key)
      ensures AtLeast(OfferedRank(last), OfferedRank(offers[j]))
      ensures j < |init| ==> Below(OfferedRank(offers[j]), OfferedRank(last))
    {
      if j < |init| {
        assert offers[j] == init[j];
        RankIsOrder(OfferedRank(init[j]), OfferedRank(init[i]), OfferedRank(last));
      }
      RankIsOrder(OfferedRank(offers[j]), OfferedRank(init[i]), OfferedRank(last));
    }
  }

  lemma NothingBefore(init: seq<Offer>, key: string)
    requires key !in AfterAll(init).fields
    ensures forall j | 0 <= j < |init| :: !IsOffer(init[j], key)
  {
    EveryOfferIsAccounted(init, key);
    hide AfterAll;
    forall j | 0 <= j < |init| ensures !IsOffer(init[j], key) { assert init[j] in init; }
  }

  lemma FirstOffer(init: seq<Offer>, last: Offer, key: string)
    requires IsOffer(last, key) && forall j | 0 <= j < |init| :: !IsOffer(init[j], key)
    ensures FirstHighest(init + [last], key, |init|)
  {
  }

  const CERTAIN := Offer("k", Text("a"), LegacyProfile, 0.9, false, None)
  const SOURCED := Offer("k", Text("a"), MaxDocx, 0.5, false, None)
  const RIVAL := Offer("k", Text("b"), MaxDocx, 0.8, false, None)

  lemma JoinedBook()
    ensures var b := AfterAll([SOURCED, CERTAIN]);
            && "k" in b.fields && b.fields["k"].value == Text("a") && StoredRank(b.fields["k"]) == Rank(400, 0.9)
  {
    var f := Incoming(SOURCED);
    assert [MaxDocx][..0] == [] && [MaxDocx, LegacyProfile][..1] == [MaxDocx];
    assert FieldPriority([MaxDocx, LegacyProfile], false) == 400;
    assert [SOURCED][..0] == [] && [SOURCED, CERTAIN][..1] == [SOURCED];
    assert AfterAll([SOURCED]) == Book(map["k" := f], []);
    assert AfterAll([SOURCED, CERTAIN]).fields["k"] == Joined(f, CERTAIN);
    assert f.sources + [LegacyProfile] == [MaxDocx, LegacyProfile];
  }

  lemma RivalBook()
    ensures var b := AfterAll([RIVAL, SOURCED]);
            && "k" in b.fields && b.fields["k"].value == Text("b") && StoredRank(b.fields["k"]) == Rank(400, 0.8)
  {
    assert [MaxDocx][..0] == [];
    assert FieldPriority([MaxDocx], false) == 400;
    assert [RIVAL][..0] == [] && [RIVAL, SOURCED][..1] == [RIVAL];
    assert AfterAll([RIVAL]) == Book(map["k" := Incoming(RIVAL)], []);
  }

  /** The stored value need not be the one of the highest single offer, and it depends on the order: the offers of one
      value add up to a rank that none of them has. */
  lemma JoinedRankShadows()
    ensures Below(OfferedRank(SOURCED), OfferedRank(RIVAL)) && Below(OfferedRank(CERTAIN), OfferedRank(RIVAL))
    ensures var b := AfterAll([SOURCED, CERTAIN, RIVAL]); "k" in b.fields && b.fields["k"].value == Text("a")
    ensures var b := AfterAll([RIVAL, SOURCED, CERTAIN]); "k" in b.fields && b.fields["k"].value == Text("b")
  {
    JoinedBook();
    RivalBook();
    hide FieldPriority, StoredRank;
    assert [SOURCED, CERTAIN, RIVAL][..2] == [SOURCED, CERTAIN];
    assert [RIVAL, SOURCED, CERTAIN][..2] == [RIVAL, SOURCED];
  }
}
