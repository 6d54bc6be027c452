/**
 The filter that freezes the legacy export shape, Modules/lvs_compat_export_helpers.py: a recursion over JSON
 trees that deletes fields according to other fields of the same object, some of which it deletes as well.
 */
module EvidenceFilter {
  import opened Options

  datatype Json =
    | Null
    | Boolean(flag: bool)
    | Number(number: real)
    | Text(text: string)
    | List(items: seq<Json>)
    | Object(fields: map<string, Json>)

  /** The names the filter works with. */
  datatype Policy = Policy(
    contracts: set<string>, provenance: string, versioned: set<string>,
    verification: set<string>, firstFlavor: string, requestedFlavors: set<string>, flavors: set<string>,
    memoryBackends: set<string>,
    gpuFields: set<string>, cpuFields: set<string>, memoryFields: set<string>,
    affinityFields: set<string>, affinityMarks: set<string>, stressFields: set<string>)

  // ----- the tests on one object

  /** value.get(key). */
  function Get(fields: map<string, Json>, key: string): Json
  {
    if key in fields then fields[key] else Null
  }

  /** Lists and dictionaries cannot be looked up in a set: the test raises a TypeError. */
  predicate Unhashable(v: Json) { v.List? || v.Object? }

  predicate TextIn(v: Json, names: set<string>) { v.Text? && v.text in names }

  /** Lower case as far as comparing with ASCII words goes; the Kelvin sign is the one other letter that ends up in
      ASCII. */
  function Lower(s: string): string
  {
    seq(|s|, i requires 0 <= i < |s| => LowerChar(s[i]))
  }

  function LowerChar(c: char): char
  {
    if 'A' <= c <= 'Z' then (c as int + 32) as char else if c == '\U{212A}' then 'k' else c
  }

  /** str(v or "").lower() == word, for a word that only a text can spell. */
  predicate IsWord(v: Json, word: string) { v.Text? && Lower(v.text) == word }

  predicate EndsWith(v: Json, suffix: string)
  {
    v.Text? && |v.text| >= |suffix| && v.text[|v.text| - |suffix|..] == suffix
  }

  /** v == 1; True equals 1. */
  predicate IsOne(v: Json) { v == Number(1.0) || v == Boolean(true) }

  predicate IsStressNg(fields: map<string, Json>)
  {
    IsWord(Get(fields, "kind"), "cpu")
    && (IsWord(Get(fields, "backend"), "stress_ng") || EndsWith(Get(fields, "executable_requested"), "stress-ng"))
  }

  function Blocked(p: Policy, fields: map<string, Json>): set<string>
  {
    p.gpuFields
    + (if IsWord(Get(fields, "kind"), "cpu") then p.cpuFields else {})
    + (if IsWord(Get(fields, "kind"), "memory") && IsWord(Get(fields, "backend"), "python_fallback") then p.memoryFields
       else {})
    + (if fields.Keys * p.affinityMarks != {} then p.affinityFields else {})
    + (if IsStressNg(fields) then p.stressFields else {})
  }

  datatype Verdict = Raises | Boundary | Ordinary(blocked: set<string>)

  /** The tests on the contract fields; None when they decide nothing. */
  function ByContract(p: Policy, contract: Json, id: Json, version: Json): Option<Verdict>
  {
    if Unhashable(contract) then Some(Raises)
    else if TextIn(contract, p.contracts) || id == Text(p.provenance) then Some(Boundary)
    else if Unhashable(id) then Some(Raises)
    else if TextIn(id, p.versioned) && IsOne(version) then Some(Boundary)
    else None
  }

  /** The tests on the kernel fields of a CPU record; None when they decide nothing. */
  function ByKernel(p: Policy, verification: Json, flavor: Json, requested: Json): Option<Verdict>
  {
    if TextIn(verification, p.verification) || flavor == Text(p.firstFlavor) then Some(Boundary)
    else if Unhashable(requested) then Some(Raises)
    else if TextIn(requested, p.requestedFlavors) then Some(Boundary)
    else if Unhashable(flavor) then Some(Raises)
    else if TextIn(flavor, p.flavors) then Some(Boundary)
    else None
  }

  function Decided(p: Policy, fields: map<string, Json>): Option<Verdict>
  {
    var first := ByContract(p, Get(fields, "contract"), Get(fields, "contract_id"), Get(fields, "contract_version"));
    if first.Some? || !IsWord(Get(fields, "kind"), "cpu") then first
    else ByKernel(p, Get(fields, "verification_contract"), Get(fields, "kernel_flavor"),
                  Get(fields, "requested_kernel_flavor"))
  }

  function Classify(p: Policy, fields: map<string, Json>): Verdict
  {
    match Decided(p, fields)
    case Some(verdict) => verdict
    case None => Ordinary(Blocked(p, fields))
  }

  /** A memory row of a fallback backend is dropped from its list. */
  predicate Dropped(p: Policy, v: Json)
  {
    v.Object? && IsWord(Get(v.fields, "kind"), "memory")
    && Get(v.fields, "backend").Text? && Lower(Get(v.fields, "backend").text) in p.memoryBackends
  }

  // ----- the filter; None stands for a TypeError

  /** The first n items of a list. */
  function FilterItems(p: Policy, items: seq<Json>, n: nat): Option<seq<Json>>
    requires n <= |items|
    decreases items, n
  {
    if n == 0 then Some([])
    else
      var before := FilterItems(p, items, n - 1);
      if Dropped(p, items[n - 1]) then before
      else
        var kept := Filter(p, items[n - 1]);
        if before.None? || kept.None? then None else Some(before.value + [kept.value])
  }

  /** preserve_legacy_worker_evidence_contract. */
  function Filter(p: Policy, v: Json): Option<Json>
    decreases v
  {
    match v
    case List(items) =>
      var kept := FilterItems(p, items, |items|);
      if kept.None? then None else Some(List(kept.value))
    case Object(fields) =>
      (match Classify(p, fields)
       case Raises => None
       case Boundary => Some(v)
       case Ordinary(blocked) =>
         if exists key :: key in fields && key !in blocked && Filter(p, fields[key]).None? then None
         else Some(Object(map key | key in fields && key !in blocked :: Filter(p, fields[key]).value)))
    case _ => Some(v)
  }

  // ----- idempotence

  /** Filtering never turns one kind of value into another. */
  predicate SameShape(v: Json, w: Json)
  {
    if v.List? then w.List? else if v.Object? then w.Object? else v == w
  }

  /** Some fields are gone, the others have kept their shape. */
  predicate Pruned(before: map<string, Json>, after: map<string, Json>)
  {
    forall key :: key in after ==> key in before && SameShape(before[key], after[key])
  }

  /** What a test can see of a field after pruning: nothing, or what it saw before. */
  predicate Fainter(before: Json, after: Json)
  {
    after == Null || SameShape(before, after)
  }

  lemma {:induction false} PruningFaints(before: map<string, Json>, after: map<string, Json>)
    requires Pruned(before, after)
    ensures forall key :: Fainter(Get(before, key), Get(after, key))
  {
  }

  lemma {:induction false} PruningShrinksBlocked(p: Policy, before: map<string, Json>, after: map<string, Json>)
    requires Pruned(before, after)
    ensures Blocked(p, after) <= Blocked(p, before)
  {
    PruningFaints(before, after);
    assert IsStressNg(after) ==> IsStressNg(before);
    assert after.Keys * p.affinityMarks <= before.Keys * p.affinityMarks;
  }

  lemma {:induction false} FaintContract(p: Policy, contract: Json, id: Json, version: Json,
                                         contract': Json, id': Json, version': Json)
    requires Fainter(contract, contract') && Fainter(id, id') && Fainter(version, version')
    requires ByContract(p, contract, id, version).None?
    ensures ByContract(p, contract', id', version').None?
  {
  }

  lemma {:induction false} FaintKernel(p: Policy, verification: Json, flavor: Json, requested: Json,
                                       verification': Json, flavor': Json, requested': Json)
    requires Fainter(verification, verification') && Fainter(flavor, flavor') && Fainter(requested, requested')
    requires ByKernel(p, verification, flavor, requested).None?
    ensures ByKernel(p, verification', flavor', requested').None?
  {
  }

  lemma {:induction false} PruningDecidesNothing(p: Policy, before: map<string, Json>, after: map<string, Json>)
    requires Pruned(before, after) && Decided(p, before).None?
    ensures Decided(p, after).None?
  {
    PruningFaints(before, after);
    FaintContract(p, Get(before, "contract"), Get(before, "contract_id"), Get(before, "contract_version"),
                  Get(after, "contract"), Get(after, "contract_id"), Get(after, "contract_version"));
    if IsWord(Get(after, "kind"), "cpu") {
      FaintKernel(p, Get(before, "verification_contract"), Get(before, "kernel_flavor"),
                  Get(before, "requested_kernel_flavor"), Get(after, "verification_contract"),
                  Get(after, "kernel_flavor"), Get(after, "requested_kernel_flavor"));
    }
  }

  /** Every test is a positive one, so deleting fields can only make an object match less. */
  lemma {:induction false} PruningKeepsVerdict(p: Policy, before: map<string, Json>, after: map<string, Json>)
    requires Pruned(before, after) && Classify(p, before).Ordinary?
    ensures Classify(p, after) == Ordinary(Blocked(p, after)) && Blocked(p, after) <= Blocked(p, before)
  {
    PruningShrinksBlocked(p, before, after);
    PruningDecidesNothing(p, before, after);
  }

  lemma {:induction false} PruningKeepsRows(p: Policy, before: map<string, Json>, after: map<string, Json>)
    requires Pruned(before, after) && Dropped(p, Object(after))
    ensures Dropped(p, Object(before))
  {
    PruningFaints(before, after);
  }

  lemma {:induction false} FilterKeepsShape(p: Policy, v: Json)
    requires Filter(p, v).Some?
    ensures SameShape(v, Filter(p, v).value)
  {
  }

  lemma {:induction false} FilterPrunes(p: Policy, v: Json)
    requires v.Object? && Filter(p, v).Some?
    ensures Filter(p, v).value.Object?
    ensures Filter(p, v) == Some(v) || (Classify(p, v.fields).Ordinary? && Pruned(v.fields, Filter(p, v).value.fields))
  {
    FilterKeepsShape(p, v);
    if Classify(p, v.fields).Ordinary? {
      var after := Filter(p, v).value.fields;
      forall key | key in after ensures key in v.fields && SameShape(v.fields[key], after[key]) {
        FilterKeepsShape(p, v.fields[key]);
      }
    }
  }

  /** Nothing is left for the filter to do. */
  predicate Clean(p: Policy, v: Json)
  {
    match v
    case List(items) => forall i :: 0 <= i < |items| ==> !Dropped(p, items[i]) && Clean(p, items[i])
    case Object(fields) =>
      (match Classify(p, fields)
       case Raises => false
       case Boundary => true
       case Ordinary(blocked) => forall key :: key in fields ==> key !in blocked && Clean(p, fields[key]))
    case _ => true
  }

  lemma {:induction false} FilteredRowStays(p: Policy, v: Json)
    requires !Dropped(p, v) && Filter(p, v).Some?
    ensures !Dropped(p, Filter(p, v).value)
  {
    FilterKeepsShape(p, v);
    if v.Object? {
      FilterPrunes(p, v);
      var w := Filter(p, v).value;
      if w != v && Dropped(p, w) { PruningKeepsRows(p, v.fields, w.fields); }
    }
  }

  lemma {:induction false} FilteredItemsAreClean(p: Policy, items: seq<Json>, n: nat)
    requires n <= |items| && FilterItems(p, items, n).Some?
    ensures var kept := FilterItems(p, items, n).value;
      forall i :: 0 <= i < |kept| ==> !Dropped(p, kept[i]) && Clean(p, kept[i])
    decreases items, n
  {
    if n > 0 {
      FilteredItemsAreClean(p, items, n - 1);
      if !Dropped(p, items[n - 1]) {
        FilteredIsClean(p, items[n - 1]);
        FilteredRowStays(p, items[n - 1]);
      }
    }
  }

  lemma {:induction false} FilteredObjectIsClean(p: Policy, v: Json)
    requires v.Object? && Classify(p, v.fields).Ordinary? && Filter(p, v).Some?
    requires var w := Filter(p, v).value; forall key :: key in w.fields ==> Clean(p, w.fields[key])
    ensures Clean(p, Filter(p, v).value)
  {
    FilterPrunes(p, v);
    PruningKeepsVerdict(p, v.fields, Filter(p, v).value.fields);
  }

  /** One pass does everything there is to do. */
  lemma {:induction false} FilteredIsClean(p: Policy, v: Json)
    requires Filter(p, v).Some?
    ensures Clean(p, Filter(p, v).value)
    decreases v
  {
    var w := Filter(p, v).value;
    if v.List? {
      FilteredItemsAreClean(p, v.items, |v.items|);
    } else if v.Object? && Classify(p, v.fields).Ordinary? {
      forall key | key in w.fields ensures Clean(p, w.fields[key]) {
        FilteredIsClean(p, v.fields[key]);
      }
      FilteredObjectIsClean(p, v);
    }
  }

  lemma {:induction false} CleanItemsAreKept(p: Policy, items: seq<Json>, n: nat)
    requires n <= |items| && forall i :: 0 <= i < |items| ==> !Dropped(p, items[i]) && Clean(p, items[i])
    ensures FilterItems(p, items, n) == Some(items[..n])
    decreases items, n
  {
    if n > 0 {
      CleanItemsAreKept(p, items, n - 1);
      CleanIsKept(p, items[n - 1]);
      assert items[..n] == items[..n - 1] + [items[n - 1]];
    }
  }

  lemma {:induction false} CleanIsKept(p: Policy, v: Json)
    requires Clean(p, v)
    ensures Filter(p, v) == Some(v)
    decreases v
  {
    if v.List? {
      CleanItemsAreKept(p, v.items, |v.items|);
      assert v.items[..|v.items|] == v.items;
    } else if v.Object? && Classify(p, v.fields).Ordinary? {
      forall key | key in v.fields ensures Filter(p, v.fields[key]) == Some(v.fields[key]) {
        CleanIsKept(p, v.fields[key]);
      }
      assert Filter(p, v).value.fields == v.fields;
    }
  }

  /** The trees the filter leaves alone are exactly the clean ones. */
  lemma {:induction false} KeptIffClean(p: Policy, v: Json)
    ensures Filter(p, v) == Some(v) <==> Clean(p, v)
  {
    if Clean(p, v) { CleanIsKept(p, v); }
    if Filter(p, v) == Some(v) { FilteredIsClean(p, v); }
  }

  /** Filtering twice is filtering once, on every tree and with any field sets. */
  lemma {:induction false} FilterIsIdempotent(p: Policy, v: Json)
    requires Filter(p, v).Some?
    ensures Filter(p, Filter(p, v).value) == Filter(p, v)
  {
    FilteredIsClean(p, v);
    CleanIsKept(p, Filter(p, v).value);
  }

  // ----- where a value of the tree ends up

  datatype Step = Index(i: nat) | Key(key: string)

  function Lookup(v: Json, path: seq<Step>): Option<Json>
  {
    if path == [] then Some(v)
    else if v.List? && path[0].Index? && path[0].i < |v.items| then Lookup(v.items[path[0].i], path[1..])
    else if v.Object? && path[0].Key? && path[0].key in v.fields then Lookup(v.fields[path[0].key], path[1..])
    else None
  }

  /** How many of the first n items are kept. */
  function Kept(p: Policy, items: seq<Json>, n: nat): nat
    requires n <= |items|
  {
    if n == 0 then 0 else Kept(p, items, n - 1) + if Dropped(p, items[n - 1]) then 0 else 1
  }

  /** The path that leads, in the filtered tree, to what path leads to in the original; None when it is deleted. */
  function Image(p: Policy, v: Json, path: seq<Step>): Option<seq<Step>>
    decreases path
  {
    if path == [] then Some([])
    else if v.List? && path[0].Index? && path[0].i < |v.items| && !Dropped(p, v.items[path[0].i]) then
      var rest := Image(p, v.items[path[0].i], path[1..]);
      if rest.None? then None else Some([Index(Kept(p, v.items, path[0].i))] + rest.value)
    else if v.Object? && path[0].Key? && path[0].key in v.fields then
      (match Classify(p, v.fields)
       case Raises => None
       case Boundary => if Lookup(v, path).Some? then Some(path) else None
       case Ordinary(blocked) =>
         var rest := Image(p, v.fields[path[0].key], path[1..]);
         if path[0].key in blocked || rest.None? then None else Some([path[0]] + rest.value))
    else None
  }

  lemma {:induction false} ItemLandsAt(p: Policy, items: seq<Json>, n: nat, i: nat)
    requires i < n <= |items| && FilterItems(p, items, n).Some? && !Dropped(p, items[i])
    ensures var kept := FilterItems(p, items, n).value;
      Kept(p, items, i) < |kept| == Kept(p, items, n) && Filter(p, items[i]) == Some(kept[Kept(p, items, i)])
  {
    KeptCount(p, items, n);
    if i < n - 1 {
      ItemLandsAt(p, items, n - 1, i);
    } else {
      KeptCount(p, items, i);
    }
  }

  lemma {:induction false} KeptCount(p: Policy, items: seq<Json>, n: nat)
    requires n <= |items| && FilterItems(p, items, n).Some?
    ensures |FilterItems(p, items, n).value| == Kept(p, items, n)
  {
    if n > 0 { KeptCount(p, items, n - 1); }
  }

  /** What is not deleted is found where Image says, filtered or untouched. */
  lemma {:induction false} FilterMovesValues(p: Policy, v: Json, path: seq<Step>)
    requires Filter(p, v).Some? && Image(p, v, path).Some?
    ensures Lookup(v, path).Some? && Lookup(Filter(p, v).value, Image(p, v, path).value).Some?
    ensures var x, y := Lookup(v, path).value, Lookup(Filter(p, v).value, Image(p, v, path).value).value;
      y == x || Filter(p, x) == Some(y)
    decreases path
  {
    if path != [] {
      if v.List? {
        ItemLandsAt(p, v.items, |v.items|, path[0].i);
        FilterMovesValues(p, v.items[path[0].i], path[1..]);
      } else if Classify(p, v.fields).Ordinary? {
        FilterMovesValues(p, v.fields[path[0].key], path[1..]);
      }
    }
  }

  /** A boundary record reached through kept keys and rows survives unchanged. */
  lemma {:induction false} BoundaryRecordSurvives(p: Policy, v: Json, path: seq<Step>, record: Json)
    requires Filter(p, v).Some? && Image(p, v, path).Some? && Lookup(v, path) == Some(record)
    requires record.Object? && Classify(p, record.fields) == Boundary
    ensures Lookup(Filter(p, v).value, Image(p, v, path).value) == Some(record)
  {
    FilterMovesValues(p, v, path);
  }

  lemma {:induction false} ItemComesFrom(p: Policy, items: seq<Json>, n: nat, j: nat) returns (i: nat)
    requires n <= |items| && j < Kept(p, items, n)
    ensures i < n && !Dropped(p, items[i]) && Kept(p, items, i) == j
  {
    if j < Kept(p, items, n - 1) { i := ItemComesFrom(p, items, n - 1, j); } else { i := n - 1; }
  }

  /** Nothing is invented: everything in the filtered tree is the image of something. */
  lemma {:induction false} NothingIsInvented(p: Policy, v: Json, q: seq<Step>) returns (path: seq<Step>)
    requires Filter(p, v).Some? && Lookup(Filter(p, v).value, q).Some?
    ensures Image(p, v, path) == Some(q)
    decreases q
  {
    path := q;
    if q != [] {
      assert q == [q[0]] + q[1..];
      if v.List? {
        KeptCount(p, v.items, |v.items|);
        var i := ItemComesFrom(p, v.items, |v.items|, q[0].i);
        ItemLandsAt(p, v.items, |v.items|, i);
        var rest := NothingIsInvented(p, v.items[i], q[1..]);
        path := [Index(i)] + rest;
        assert path[1..] == rest;
      } else if Classify(p, v.fields).Ordinary? {
        var rest := NothingIsInvented(p, v.fields[q[0].key], q[1..]);
        path := [q[0]] + rest;
        assert path[1..] == rest;
      }
    }
  }

  // ----- when the filter raises

  /** The filter comes to an object with an unhashable name in a place that is looked up in a set. */
  predicate Offends(p: Policy, v: Json, path: seq<Step>)
    decreases path
  {
    if path == [] then v.Object? && Classify(p, v.fields) == Raises
    else if v.List? && path[0].Index? && path[0].i < |v.items| then
      !Dropped(p, v.items[path[0].i]) && Offends(p, v.items[path[0].i], path[1..])
    else if v.Object? && path[0].Key? && path[0].key in v.fields && Classify(p, v.fields).Ordinary? then
      path[0].key !in Classify(p, v.fields).blocked && Offends(p, v.fields[path[0].key], path[1..])
    else false
  }

  lemma {:induction false} RaisingItem(p: Policy, items: seq<Json>, n: nat) returns (i: nat)
    requires n <= |items| && FilterItems(p, items, n).None?
    ensures i < n && !Dropped(p, items[i]) && Filter(p, items[i]).None?
  {
    if FilterItems(p, items, n - 1).None? { i := RaisingItem(p, items, n - 1); } else { i := n - 1; }
  }

  lemma {:induction false} RaisingItemRaises(p: Policy, items: seq<Json>, n: nat, i: nat)
    requires i < n <= |items| && !Dropped(p, items[i]) && Filter(p, items[i]).None?
    ensures FilterItems(p, items, n).None?
  {
    if i < n - 1 { RaisingItemRaises(p, items, n - 1, i); }
  }

  lemma {:induction false} OffenceRaises(p: Policy, v: Json, path: seq<Step>)
    requires Offends(p, v, path)
    ensures Filter(p, v).None?
    decreases path
  {
    if path != [] {
      if v.List? {
        OffenceRaises(p, v.items[path[0].i], path[1..]);
        RaisingItemRaises(p, v.items, |v.items|, path[0].i);
      } else {
        OffenceRaises(p, v.fields[path[0].key], path[1..]);
      }
    }
  }

  lemma {:induction false} OffenceOf(p: Policy, v: Json) returns (path: seq<Step>)
    requires Filter(p, v).None?
    ensures Offends(p, v, path)
    decreases v
  {
    path := [];
    if v.List? {
      var i := RaisingItem(p, v.items, |v.items|);
      var rest := OffenceOf(p, v.items[i]);
      path := [Index(i)] + rest;
      assert path[1..] == rest;
    } else if Classify(p, v.fields).Ordinary? {
      var key :| key in v.fields && key !in Classify(p, v.fields).blocked && Filter(p, v.fields[key]).None?;
      var rest := OffenceOf(p, v.fields[key]);
      path := [Key(key)] + rest;
      assert path[1..] == rest;
    }
  }

  ghost predicate Offended(p: Policy, v: Json)
  {
    exists path :: Offends(p, v, path)
  }

  /** A TypeError is raised if and only if the filter comes to an offending object. */
  lemma {:induction false} RaisesIffOffended(p: Policy, v: Json)
    ensures Filter(p, v).None? <==> Offended(p, v)
  {
    if Filter(p, v).None? {
      var path := OffenceOf(p, v);
      assert Offended(p, v);
    }
    if Offended(p, v) {
      var path :| Offends(p, v, path);
      OffenceRaises(p, v, path);
    }
  }

  // ----- what is dropped, deleted and protected, read off the fields themselves

  /** c is the ASCII character w or another letter case of it; the Kelvin sign is one of k. */
  predicate SameLetter(c: char, w: char)
  {
    c == w || ('a' <= w <= 'z' && c as int == w as int - 32) || (w == 'k' && c == '\U{212A}')
  }

  /** The text is the word in some mixture of letter cases. */
  predicate Spells(text: string, word: string)
  {
    |text| == |word| && forall i :: 0 <= i < |word| ==> SameLetter(text[i], word[i])
  }

  predicate LowerCase(word: string)
  {
    forall i :: 0 <= i < |word| ==> !('A' <= word[i] <= 'Z') && word[i] != '\U{212A}'
  }

  predicate Says(fields: map<string, Json>, key: string, word: string)
  {
    key in fields && fields[key].Text? && Spells(fields[key].text, word)
  }

  predicate Names(fields: map<string, Json>, key: string, names: set<string>)
  {
    key in fields && fields[key].Text? && fields[key].text in names
  }

  predicate Container(fields: map<string, Json>, key: string)
  {
    key in fields && (fields[key].List? || fields[key].Object?)
  }

  lemma {:induction false} LowerMeansSpells(text: string, word: string)
    requires LowerCase(word)
    ensures Lower(text) == word <==> Spells(text, word)
  {
    assert Lower(text) == word ==> forall i :: 0 <= i < |word| ==> LowerChar(text[i]) == word[i];
  }

  lemma {:induction false} LoweredIsLowerCase(text: string)
    ensures LowerCase(Lower(text))
  {
  }

  lemma {:induction false} WordMeansSays(fields: map<string, Json>, key: string, word: string)
    requires LowerCase(word)
    ensures IsWord(Get(fields, key), word) <==> Says(fields, key, word)
  {
    if key in fields && fields[key].Text? { LowerMeansSpells(fields[key].text, word); }
  }

  /** An object whose kind spells memory and whose backend spells one of the fallback backends. A name with a capital
      letter is spelled by no text, for texts are compared in lower case. */
  predicate FallbackRow(p: Policy, v: Json)
  {
    v.Object? && Says(v.fields, "kind", "memory")
    && exists backend :: backend in p.memoryBackends && LowerCase(backend) && Says(v.fields, "backend", backend)
  }

  lemma {:induction false} DroppedIffFallbackRow(p: Policy, v: Json)
    ensures Dropped(p, v) <==> FallbackRow(p, v)
  {
    if v.Object? {
      WordMeansSays(v.fields, "kind", "memory");
      if "backend" in v.fields && v.fields["backend"].Text? {
        var text := v.fields["backend"].text;
        LoweredIsLowerCase(text);
        LowerMeansSpells(text, Lower(text));
        forall backend | backend in p.memoryBackends && LowerCase(backend)
          ensures Lower(text) == backend <==> Says(v.fields, "backend", backend)
        {
          LowerMeansSpells(text, backend);
        }
      }
    }
  }

  /** The items that are no fallback rows, in order. */
  function WithoutFallbackRows(p: Policy, items: seq<Json>): seq<Json>
  {
    if items == [] then []
    else (if FallbackRow(p, items[0]) then [] else [items[0]]) + WithoutFallbackRows(p, items[1..])
  }

  lemma {:induction false} WithoutLastRow(p: Policy, items: seq<Json>, last: Json)
    ensures WithoutFallbackRows(p, items + [last])
         == WithoutFallbackRows(p, items) + if FallbackRow(p, last) then [] else [last]
  {
    if items == [] {
      assert items + [last] == [last];
    } else {
      WithoutLastRow(p, items[1..], last);
      assert (items + [last])[1..] == items[1..] + [last];
    }
  }

  lemma {:induction false} FirstRowsKept(p: Policy, items: seq<Json>, n: nat)
    requires n <= |items| && FilterItems(p, items, n).Some?
    ensures var kept, rows := FilterItems(p, items, n).value, WithoutFallbackRows(p, items[..n]);
      |kept| == |rows| && forall i :: 0 <= i < |rows| ==> Filter(p, rows[i]) == Some(kept[i])
  {
    if n > 0 {
      FirstRowsKept(p, items, n - 1);
      assert items[..n] == items[..n - 1] + [items[n - 1]];
      WithoutLastRow(p, items[..n - 1], items[n - 1]);
      DroppedIffFallbackRow(p, items[n - 1]);
    }
  }

  /** A fallback row leaves no item behind; every other item leaves exactly one, its own filtered value, in order. */
  lemma {:induction false} RowsKept(p: Policy, items: seq<Json>)
    requires Filter(p, List(items)).Some?
    ensures Filter(p, List(items)).value.List?
    ensures var kept, rows := Filter(p, List(items)).value.items, WithoutFallbackRows(p, items);
      |kept| == |rows| && forall i :: 0 <= i < |rows| ==> Filter(p, rows[i]) == Some(kept[i])
  {
    FirstRowsKept(p, items, |items|);
    assert items[..|items|] == items;
  }

  predicate NamedContract(p: Policy, fields: map<string, Json>)
  {
    Names(fields, "contract", p.contracts) || Names(fields, "contract_id", {p.provenance})
  }

  predicate NamedVersion(p: Policy, fields: map<string, Json>)
  {
    Names(fields, "contract_id", p.versioned) && "contract_version" in fields
    && (fields["contract_version"] == Number(1.0) || fields["contract_version"] == Boolean(true))
  }

  /** The names in an object make it an indivisible piece of evidence. */
  predicate Protected(p: Policy, fields: map<string, Json>)
  {
    || NamedContract(p, fields) || NamedVersion(p, fields)
    || (Says(fields, "kind", "cpu")
        && (|| Names(fields, "verification_contract", p.verification)
            || Names(fields, "kernel_flavor", {p.firstFlavor} + p.flavors)
            || Names(fields, "requested_kernel_flavor", p.requestedFlavors)))
  }

  /** A list or a dictionary stands where a name is looked up in a set and nothing looked up before it has decided:
      under contract, under contract_id, or, in a CPU record, under one of the two flavors. */
  predicate Misnamed(p: Policy, fields: map<string, Json>)
  {
    || Container(fields, "contract")
    || (!NamedContract(p, fields) && Container(fields, "contract_id"))
    || (!NamedContract(p, fields) && !NamedVersion(p, fields) && Says(fields, "kind", "cpu")
        && !Names(fields, "verification_contract", p.verification)
        && !Names(fields, "kernel_flavor", {p.firstFlavor})
        && (|| Container(fields, "requested_kernel_flavor")
            || (Container(fields, "kernel_flavor") && !Names(fields, "requested_kernel_flavor", p.requestedFlavors))))
  }

  lemma {:induction false} ContractDecides(p: Policy, fields: map<string, Json>)
    ensures ByContract(p, Get(fields, "contract"), Get(fields, "contract_id"), Get(fields, "contract_version"))
         == if Container(fields, "contract") then Some(Raises)
            else if NamedContract(p, fields) then Some(Boundary)
            else if Container(fields, "contract_id") then Some(Raises)
            else if NamedVersion(p, fields) then Some(Boundary)
            else None
  {
  }

  lemma {:induction false} KernelDecides(p: Policy, fields: map<string, Json>)
    ensures var flavored := Names(fields, "requested_kernel_flavor", p.requestedFlavors);
      ByKernel(p, Get(fields, "verification_contract"), Get(fields, "kernel_flavor"),
               Get(fields, "requested_kernel_flavor"))
         == if || Names(fields, "verification_contract", p.verification)
               || Names(fields, "kernel_flavor", {p.firstFlavor}) then Some(Boundary)
            else if Container(fields, "requested_kernel_flavor") then Some(Raises)
            else if flavored then Some(Boundary)
            else if Container(fields, "kernel_flavor") then Some(Raises)
            else if Names(fields, "kernel_flavor", p.flavors) then Some(Boundary)
            else None
  {
  }

  /** The filter raises on misnamed objects and leaves the other protected ones alone, whole. */
  lemma {:induction false} VerdictByNames(p: Policy, fields: map<string, Json>)
    ensures Classify(p, fields).Raises? <==> Misnamed(p, fields)
    ensures Classify(p, fields).Boundary? <==> Protected(p, fields) && !Misnamed(p, fields)
    ensures Misnamed(p, fields) ==> Filter(p, Object(fields)).None?
    ensures Protected(p, fields) && !Misnamed(p, fields) ==> Filter(p, Object(fields)) == Some(Object(fields))
  {
    ContractDecides(p, fields);
    KernelDecides(p, fields);
    WordMeansSays(fields, "kind", "cpu");
  }

  /** The rules that delete a field, one disjunct a rule. */
  ghost predicate Deletes(p: Policy, fields: map<string, Json>, key: string)
  {
    || key in p.gpuFields
    || (Says(fields, "kind", "cpu") && key in p.cpuFields)
    || (Says(fields, "kind", "memory") && Says(fields, "backend", "python_fallback") && key in p.memoryFields)
    || ((exists mark :: mark in p.affinityMarks && mark in fields) && key in p.affinityFields)
    || (Says(fields, "kind", "cpu") && (Says(fields, "backend", "stress_ng") || RunsStressNg(fields))
        && key in p.stressFields)
  }

  ghost predicate RunsStressNg(fields: map<string, Json>)
  {
    "executable_requested" in fields && fields["executable_requested"].Text?
    && exists start: string :: fields["executable_requested"].text == start + "stress-ng"
  }

  lemma {:induction false} EndMeansRuns(fields: map<string, Json>)
    ensures EndsWith(Get(fields, "executable_requested"), "stress-ng") <==> RunsStressNg(fields)
  {
    if "executable_requested" in fields && fields["executable_requested"].Text? {
      var text := fields["executable_requested"].text;
      if |text| >= 9 && text[|text| - 9..] == "stress-ng" {
        assert text == text[..|text| - 9] + "stress-ng";
      }
      if RunsStressNg(fields) {
        var start: string :| text == start + "stress-ng";
        assert text[|text| - 9..] == "stress-ng";
      }
    }
  }

  lemma {:induction false} BlockedIffDeleted(p: Policy, fields: map<string, Json>, key: string)
    ensures key in Blocked(p, fields) <==> Deletes(p, fields, key)
  {
    WordMeansSays(fields, "kind", "cpu");
    WordMeansSays(fields, "kind", "memory");
    WordMeansSays(fields, "backend", "python_fallback");
    WordMeansSays(fields, "backend", "stress_ng");
    EndMeansRuns(fields);
    assert fields.Keys * p.affinityMarks != {} <==> exists mark :: mark in p.affinityMarks && mark in fields by {
      if fields.Keys * p.affinityMarks != {} {
        var mark :| mark in fields.Keys * p.affinityMarks;
        assert mark in p.affinityMarks && mark in fields;
      }
      assert forall mark :: mark in p.affinityMarks && mark in fields ==> mark in fields.Keys * p.affinityMarks;
    }
  }

  /** An object that is neither protected nor misnamed keeps exactly the fields no rule deletes, filtered. */
  lemma {:induction false} FieldsKept(p: Policy, fields: map<string, Json>)
    requires Filter(p, Object(fields)).Some? && !Protected(p, fields)
    ensures Filter(p, Object(fields)).value.Object?
    ensures var kept := Filter(p, Object(fields)).value.fields;
      && (forall key :: key in kept <==> key in fields && !Deletes(p, fields, key))
      && forall key :: key in kept ==> Filter(p, fields[key]) == Some(kept[key])
  {
    VerdictByNames(p, fields);
    forall key ensures key in Blocked(p, fields) <==> Deletes(p, fields, key) { BlockedIffDeleted(p, fields, key); }
  }

  // ----- the legacy field sets

  const LEGACY := Policy(
    {"gpu_allocation_safety_v1", "gpu_allocation_feasibility_v1", "opencl_allocation_timing_v1",
     "opencl_allocation_progress_v1"},
    "linux_validation_suite.native_executable_provenance",
    {"linux_validation_suite.gpu_worker_slow_operations", "linux_validation_suite.vulkan_compute_shutdown"},
    {"neon_fp32_fma_v1", "sve_fp32_fma_v1", "avx_vnni_v1", "avx512_vnni_v1", "sve2_smlal_v1", "neon_dotprod_v1",
     "neon_i8mm_v1", "neon_fp16_v1", "neon_fhm_v1", "neon_bf16_v1", "sve_i8mm_v1"},
    "sve_fp32_fma",
    {"sve_fp32_fma"} + VECTOR_FLAVORS,
    VECTOR_FLAVORS,
    {"python_fallback", "stress_ng"},
    GPU_MEMORY_PLAN_FIELDS, CPU_TARGETING_FIELDS, PYTHON_MEMORY_FIELDS, NATIVE_AFFINITY_FIELDS,
    AFFINITY_MARKS, STRESS_NG_EVIDENCE_FIELDS)

  const AFFINITY_MARKS: set<string> := {"affinity_attempted_count", "affinity_target_cpu", "affinity_error_code"}

  const VECTOR_FLAVORS := {
    "avx_vnni", "avx512_vnni", "sve2_smlal", "neon_dotprod", "neon_i8mm", "neon_fp16", "neon_fhm", "neon_bf16",
    "sve_i8mm"}

  const GPU_MEMORY_PLAN_FIELDS: set<string> :=
    GPU_DEVICE_FIELDS + GPU_CAPACITY_FIELDS + GPU_USAGE_FIELDS + GPU_ALLOCATION_FIELDS

  const GPU_DEVICE_FIELDS: set<string> := {
    "hardware_device_verified", "device_match_score", "device_match_ambiguous", "target_device_name",
    "physical_gpu_id", "failure_reason", "gpu_memory_kind", "memory_classification_source",
    "memory_classification_confidence"}

  const GPU_CAPACITY_FIELDS: set<string> := {
    "memory_capacity_source", "dedicated_vram_capacity_bytes", "shared_addressable_capacity_bytes",
    "shared_addressable_capacity_status", "api_addressable_capacity_bytes", "api_addressable_capacity_source",
    "backend_addressable_capacity_bytes", "backend_addressable_capacity_source",
    "backend_addressable_capacity_status", "total_capacity_trust", "system_memory_pool_ceiling_bytes",
    "max_single_allocation_bytes", "max_single_allocation_source", "max_buffer_or_object_bytes",
    "max_buffer_or_object_source", "max_allocation_count", "max_allocation_count_source",
    "allocation_granularity_bytes", "planned_allocation_chunks", "planned_allocation_chunk_count"}

  const GPU_USAGE_FIELDS: set<string> := {
    "reported_vram_total_bytes", "reported_vram_total_semantics", "ambiguous_integrated_vram_report_bytes",
    "current_gpu_memory_used_bytes", "current_gpu_memory_used_source", "current_gpu_memory_available_bytes",
    "current_gpu_memory_available_source", "firmware_preallocated_or_stolen_bytes",
    "firmware_preallocated_or_stolen_source", "requested_gpu_memory_target_bytes", "requested_gpu_memory_percent",
    "planned_gpu_memory_target_bytes"}

  const GPU_ALLOCATION_FIELDS: set<string> := {
    "system_memory_budget_participation", "system_memory_commitment_multiplier",
    "system_memory_fixed_commitment_bytes", "memory_budget_consumer_id", "memory_budgetability",
    "target_cap_reason", "allocation_backoff_attempts", "actual_allocated_bytes", "allocation_ratio",
    "allocation_outcome", "allocation_valid", "allocation_runtime_failed", "nominal_allocated_texture_bytes",
    "physical_commitment_known", "staging_allocation_bytes", "minimum_viable_allocation_bytes",
    "minimum_viable_allocation_source", "runtime_memory_guard_triggered", "runtime_memory_guard_details",
    "allocation_growth_stopped"}

  const CPU_TARGETING_FIELDS: set<string> := {
    "available_cpu_ids", "online_cpu_ids", "allowed_cpu_ids", "target_cpu_ids", "requested_thread_count",
    "actual_worker_count", "affinity_requested", "affinity_status", "affinity_unavailable_count",
    "affinity_evidence", "worker_progress", "verification_passes", "verification_error_count",
    "verification_method", "capability_scope", "common_safe_instruction_set", "per_cpu_capabilities",
    "capability_probe_failures", "capability_intersection_reason"}

  const PYTHON_MEMORY_FIELDS: set<string> := {
    "assigned_target_bytes", "planned_target_bytes", "successfully_allocated_bytes", "successful_chunk_count",
    "attempted_chunk_count", "allocation_failure_count", "final_attempted_chunk_bytes", "memory_error_occurred",
    "allocation_shortfall_bytes", "allocation_ratio", "allocation_outcome", "allocation_valid",
    "allocation_verified", "verification_passes", "verification_failures", "verified_bytes_per_pass",
    "verification_chunks_completed", "current_pattern", "first_verification_error", "actual_allocated_bytes",
    "target_cap_reason", "runtime_memory_guard_triggered", "runtime_memory_guard_details",
    "allocation_growth_stopped"}

  const NATIVE_AFFINITY_FIELDS: set<string> := {
    "affinity_attempted_count", "affinity_applied_count", "affinity_failed_count", "affinity_target_cpu",
    "affinity_attempted", "affinity_applied", "affinity_required", "affinity_error_code", "observed_cpu"}

  const STRESS_NG_EVIDENCE_FIELDS: set<string> := {
    "backend", "errors", "requested_stressor_count", "dispatched_stressor_count", "passed_stressor_count",
    "failed_stressor_count", "skipped_stressor_count", "metrics_untrustworthy_count", "stressor_metrics",
    "verification_enabled", "executed_command", "executable_requested", "executable_resolved_path",
    "executable_version", "process_pid", "process_started_iso", "process_ended_iso", "process_elapsed_seconds",
    "expected_termination", "result_write_error"}

  const STRESS_NG_RECORD: map<string, Json> := map["kind" := Text("cpu"), "backend" := Text("stress_ng")]

  lemma {:induction false} StressNgRecordIsSeen()
    ensures IsStressNg(STRESS_NG_RECORD) && IsWord(Get(STRESS_NG_RECORD, "kind"), "cpu")
    ensures !IsStressNg(map["kind" := Text("cpu")])
  {
    assert Lower("cpu") == "cpu" && Lower("stress_ng") == "stress_ng";
  }

  lemma {:induction false} StressNgRecordIsBlocked(p: Policy)
    requires "backend" !in p.affinityMarks && "kind" !in p.affinityMarks
    ensures Blocked(p, STRESS_NG_RECORD) == p.gpuFields + p.cpuFields + p.stressFields
    ensures Blocked(p, map["kind" := Text("cpu")]) == p.gpuFields + p.cpuFields
    ensures Classify(p, STRESS_NG_RECORD) == Ordinary(Blocked(p, STRESS_NG_RECORD))
  {
    StressNgRecordIsSeen();
    assert "cpu" != "memory";
    assert STRESS_NG_RECORD.Keys * p.affinityMarks == {};
    assert (map["kind" := Text("cpu")]).Keys * p.affinityMarks == {};
  }

  lemma {:induction false} StressNgBackendIsDeleted(p: Policy)
    requires "backend" !in p.affinityMarks && "kind" !in p.affinityMarks && "backend" in p.stressFields
    requires "backend" !in p.gpuFields + p.cpuFields && "kind" !in p.gpuFields + p.cpuFields + p.stressFields
    ensures Filter(p, Object(STRESS_NG_RECORD)) == Some(Object(map["kind" := Text("cpu")]))
    ensures Blocked(p, map["kind" := Text("cpu")]) < Blocked(p, STRESS_NG_RECORD)
  {
    StressNgRecordIsBlocked(p);
    var blocked := p.gpuFields + p.cpuFields + p.stressFields;
    assert Filter(p, Text("cpu")) == Some(Text("cpu"));
    assert (map key | key in STRESS_NG_RECORD && key !in blocked :: Filter(p, STRESS_NG_RECORD[key]).value)
        == map["kind" := Text("cpu")];
    assert "backend" in blocked;
  }

  /** The names of these fields are longer than the two names of the record. */
  predicate LongNames(names: set<string>)
  {
    forall name :: name in names ==> |name| > 7
  }

  lemma {:induction false} GpuDeviceNamesAreLong()
    ensures LongNames(GPU_DEVICE_FIELDS)
  {
  }

  lemma {:induction false} GpuCapacityNamesAreLong()
    ensures LongNames(GPU_CAPACITY_FIELDS)
  {
  }

  lemma {:induction false} GpuUsageNamesAreLong()
    ensures LongNames(GPU_USAGE_FIELDS)
  {
  }

  lemma {:induction false} GpuAllocationNamesAreLong()
    ensures LongNames(GPU_ALLOCATION_FIELDS)
  {
  }

  lemma {:induction false} LongUnion(a: set<string>, b: set<string>)
    requires LongNames(a) && LongNames(b)
    ensures LongNames(a + b)
  {
  }

  lemma {:induction false} GpuNamesAreLong()
    ensures LongNames(GPU_MEMORY_PLAN_FIELDS)
  {
    GpuDeviceNamesAreLong();
    GpuCapacityNamesAreLong();
    GpuUsageNamesAreLong();
    GpuAllocationNamesAreLong();
    LongUnion(GPU_DEVICE_FIELDS, GPU_CAPACITY_FIELDS);
    LongUnion(GPU_DEVICE_FIELDS + GPU_CAPACITY_FIELDS, GPU_USAGE_FIELDS);
    LongUnion(GPU_DEVICE_FIELDS + GPU_CAPACITY_FIELDS + GPU_USAGE_FIELDS, GPU_ALLOCATION_FIELDS);
  }

  lemma {:induction false} OtherStressNgFields()
    ensures "backend" !in CPU_TARGETING_FIELDS && "kind" !in CPU_TARGETING_FIELDS
    ensures "backend" in STRESS_NG_EVIDENCE_FIELDS && "kind" !in STRESS_NG_EVIDENCE_FIELDS
  {
  }

  lemma {:induction false} NoAffinityMarks()
    ensures "backend" !in AFFINITY_MARKS && "kind" !in AFFINITY_MARKS
  {
  }

  /** Under the legacy rules a stress-ng record loses the backend it is recognized by: a second pass no longer
      recognizes it and blocks strictly fewer fields. */
  lemma {:induction false} StressNgRecordLosesItsBackend()
    ensures var after := map["kind" := Text("cpu")];
      && IsStressNg(STRESS_NG_RECORD) && !IsStressNg(after)
      && Filter(LEGACY, Object(STRESS_NG_RECORD)) == Some(Object(after))
      && Blocked(LEGACY, after) < Blocked(LEGACY, STRESS_NG_RECORD)
  {
    GpuNamesAreLong();
    OtherStressNgFields();
    NoAffinityMarks();
    StressNgRecordIsSeen();
    StressNgBackendIsDeleted(LEGACY);
  }

  function MemoryRow(kind: string, backend: string): Json
  {
    Object(map["kind" := Text(kind), "backend" := Text(backend)])
  }

  lemma {:induction false} OneRowKept(p: Policy, row: Json)
    ensures Filter(p, List([row])) == Some(List([])) <==> FallbackRow(p, row)
  {
    DroppedIffFallbackRow(p, row);
    assert FilterItems(p, [row], 0) == Some([]);
  }

  lemma {:induction false} FallbackRows(p: Policy, kind: string, backend: string)
    requires p.memoryBackends == {"python_fallback", "stress_ng"}
    ensures FallbackRow(p, MemoryRow(kind, backend))
       <==> Spells(kind, "memory") && (Spells(backend, "python_fallback") || Spells(backend, "stress_ng"))
  {
    assert LowerCase("python_fallback") && LowerCase("stress_ng");
  }

  /** Under the legacy rules a row of these two names is gone, in any letter case, and every other one stays. */
  lemma {:induction false} LegacyMemoryRows(kind: string, backend: string)
    ensures Filter(LEGACY, List([MemoryRow(kind, backend)])) == Some(List([]))
       <==> Spells(kind, "memory") && (Spells(backend, "python_fallback") || Spells(backend, "stress_ng"))
  {
    OneRowKept(LEGACY, MemoryRow(kind, backend));
    FallbackRows(LEGACY, kind, backend);
  }

  lemma {:induction false} CaseDoesNotMatter()
    ensures Spells("memory", "memory") && Spells("stress_ng", "stress_ng")
    ensures Spells("Memory", "memory") && Spells("STRESS_NG", "stress_ng")
  {
  }

  lemma {:induction false} StressNgMemoryRowIsDropped()
    ensures Filter(LEGACY, List([Object(map["kind" := Text("memory"), "backend" := Text("stress_ng")])]))
         == Some(List([]))
    ensures Filter(LEGACY, List([Object(map["kind" := Text("Memory"), "backend" := Text("STRESS_NG")])]))
         == Some(List([]))
  {
    CaseDoesNotMatter();
    LegacyMemoryRows("memory", "stress_ng");
    LegacyMemoryRows("Memory", "STRESS_NG");
  }
}
