/** Rewriting the input lists that slice 0 left in a compiled graph to the merged lists
    (runtime/server.py:1336-1370, 1437-1513), against parsing the workflow with the merged inputs
    (parser/n8n.py:1717-1756). */
module LiteralRewrite {
  import opened Collections
  import opened Slicing
  import opened Coalescing

  /** A labelled list literal of a graph. */
  datatype Slot = Slot(name: string, items: seq<string>)

  datatype RewriteError = Ambiguous(name: string) | NoTarget(key: string)

  // ---- which key a slot is rewritten to ----------------------------------------------------

  /** The varying inputs whose values in the first slice are this list. */
  function Matches(first: Inputs, varying: set<string>, items: seq<string>): (r: set<string>) {
    set k | k in varying && k in first && first[k] == items
  }

  /** At most one varying input has this list in the first slice. */
  ghost predicate OneOwner(first: Inputs, varying: set<string>, items: seq<string>) {
    forall k, l :: k in varying && l in varying && k in first && l in first && first[k] == items && first[l] == items ==> k == l
  }

  lemma OneMatch(first: Inputs, varying: set<string>, items: seq<string>)
    ensures |Matches(first, varying, items)| <= 1 <==> OneOwner(first, varying, items)
  {
    var matched := Matches(first, varying, items);
    assert forall l :: l in varying && l in first && first[l] == items ==> l in matched;
    if k :| k in matched {
      var rest := matched - {k};
      assert |rest| == |matched| - 1;
      if |rest| > 0 {
        var l :| l in rest;
        assert first[k] == items && first[l] == items && k != l;
      } else {
        forall l | l in varying && l in first && first[l] == items ensures l == k {
          assert l in rest || l == k;
        }
      }
    }
  }

  /** No list outside the varying labels matches two varying inputs. */
  ghost predicate Unambiguous(slots: seq<Slot>, first: Inputs, varying: set<string>) {
    forall i :: 0 <= i < |slots| && slots[i].name !in varying ==> OneOwner(first, varying, slots[i].items)
  }

  /** The inferred aliases: for each label, the key matched by its last matching slot. */
  ghost function Aliases(slots: seq<Slot>, first: Inputs, varying: set<string>): (r: map<string, string>)
    ensures forall name :: name in r ==> name !in varying && r[name] in varying
  {
    if slots == [] then map[]
    else
      var n := |slots| - 1;
      var m, matched := Aliases(slots[..n], first, varying), Matches(first, varying, slots[n].items);
      if slots[n].name in varying || matched == {} then m
      else
        var k :| k in matched;
        m[slots[n].name := k]
  }

  ghost function Chosen(aliases: map<string, string>, varying: set<string>, name: string): Option<string> {
    if name in varying then Some(name)
    else if name in aliases then Some(aliases[name])
    else None
  }

  ghost function Replaced(s: Slot, aliases: map<string, string>, merged: Inputs, varying: set<string>): (r: Slot) {
    var key := Chosen(aliases, varying, s.name);
    if key.Some? && key.value in merged then Slot(s.name, merged[key.value]) else s
  }

  ghost function Rewritten(slots: seq<Slot>, first: Inputs, merged: Inputs, varying: set<string>): (r: seq<Slot>)
    ensures |r| == |slots|
  {
    var aliases := Aliases(slots, first, varying);
    seq(|slots|, i requires 0 <= i < |slots| => Replaced(slots[i], aliases, merged, varying))
  }

  /** How many of the slots are rewritten to the key. */
  ghost function Hits(slots: seq<Slot>, aliases: map<string, string>, varying: set<string>, key: string): (r: nat)
    ensures r > 0 <==> exists i :: 0 <= i < |slots| && Chosen(aliases, varying, slots[i].name) == Some(key)
  {
    if slots == [] then 0
    else
      var n := |slots| - 1;
      Hits(slots[..n], aliases, varying, key) + if Chosen(aliases, varying, slots[n].name) == Some(key) then 1 else 0
  }

  /** Every varying input is rewritten somewhere or read by an input operator. */
  ghost predicate AllHit(slots: seq<Slot>, first: Inputs, varying: set<string>, inputOps: set<string>) {
    forall key :: key in varying ==> key in inputOps || Hits(slots, Aliases(slots, first, varying), varying, key) > 0
  }

  /** Slot `j` is the last one of its name to hold the list of a varying input, and that input is the key. */
  ghost predicate LastOwned(slots: seq<Slot>, first: Inputs, varying: set<string>, name: string, key: string, j: nat) {
    j < |slots| && slots[j].name == name && name !in varying && key in varying && key in first && first[key] == slots[j].items &&
    forall i, l :: j < i < |slots| && slots[i].name == name && l in varying && l in first ==> first[l] != slots[i].items
  }

  /** A label that names no varying input is an alias of the one whose list its last owned slot holds. */
  lemma {:induction false} AliasIff(slots: seq<Slot>, first: Inputs, varying: set<string>, name: string, key: string)
    requires Unambiguous(slots, first, varying)
    ensures (name in Aliases(slots, first, varying) && Aliases(slots, first, varying)[name] == key) <==>
            exists j :: LastOwned(slots, first, varying, name, key, j)
  {
    if slots != [] {
      var n := |slots| - 1;
      var front, matched := slots[..n], Matches(first, varying, slots[n].items);
      AliasIff(front, first, varying, name, key);
      if slots[n].name == name && name !in varying && matched != {} {
        var k :| k in matched;
        assert OneOwner(first, varying, slots[n].items);
        assert forall l :: l in matched ==> l == k;
        assert Aliases(slots, first, varying)[name] == k;
        assert LastOwned(slots, first, varying, name, k, n);
        forall j, l | LastOwned(slots, first, varying, name, l, j) ensures l == k {
        }
      } else {
        assert forall l :: l in varying && l in first && first[l] == slots[n].items ==> l in matched;
        forall j: nat ensures LastOwned(slots, first, varying, name, key, j) <==> LastOwned(front, first, varying, name, key, j) {
        }
      }
    }
  }

  lemma SingleChoice(a: set<string>, k: string)
    requires |a| <= 1 && k in a
    ensures a == {k}
  {
    assert |a - {k}| == |a| - 1;
  }

  /** The first loop: `inferred_aliases`. */
  method InferAliases(slots: seq<Slot>, first: Inputs, varying: set<string>)
    returns (r: Result<map<string, string>, RewriteError>)
    requires varying <= first.Keys
    ensures r.Ok? <==> Unambiguous(slots, first, varying)
    ensures r.Ok? ==> r.value == Aliases(slots, first, varying)
  {
    hide OneOwner, Matches;
    var aliases: map<string, string> := map[];
    for i := 0 to |slots|
      invariant Unambiguous(slots[..i], first, varying) && aliases == Aliases(slots[..i], first, varying)
    {
      assert slots[..i + 1][..i] == slots[..i];
      var s := slots[i];
      if s.name in varying {
        continue;
      }
      var matched := Matches(first, varying, s.items);
      OneMatch(first, varying, s.items);
      if |matched| > 1 {
        return Err(Ambiguous(s.name));
      }
      if |matched| == 1 {
        var k :| k in matched;
        SingleChoice(matched, k);
        aliases := aliases[s.name := k];
      }
    }
    assert slots[..|slots|] == slots;
    r := Ok(aliases);
  }

  /** The rewrite hits among the slots. */
  ghost predicate Counted(hits: map<string, nat>, slots: seq<Slot>, aliases: map<string, string>, varying: set<string>) {
    hits.Keys == varying && forall k :: k in varying ==> hits[k] == Hits(slots, aliases, varying, k)
  }

  function CountHit(hits: map<string, nat>, key: Option<string>): map<string, nat>
    requires key.Some? ==> key.value in hits
  {
    if key.Some? then hits[key.value := hits[key.value] + 1] else hits
  }

  lemma CountNext(hits: map<string, nat>, slots: seq<Slot>, i: nat, aliases: map<string, string>, varying: set<string>)
    requires i < |slots| && Counted(hits, slots[..i], aliases, varying)
    requires forall l :: l in aliases ==> aliases[l] in varying
    ensures Chosen(aliases, varying, slots[i].name).Some? ==> Chosen(aliases, varying, slots[i].name).value in hits
    ensures Counted(CountHit(hits, Chosen(aliases, varying, slots[i].name)), slots[..i + 1], aliases, varying)
  {
    assert slots[..i + 1][..i] == slots[..i];
  }

  method ReplaceOne(s: Slot, aliases: map<string, string>, merged: Inputs, varying: set<string>)
    returns (t: Slot, key: Option<string>)
    requires varying <= merged.Keys && forall l :: l in aliases ==> aliases[l] in varying
    ensures t == Replaced(s, aliases, merged, varying) && key == Chosen(aliases, varying, s.name)
  {
    key := if s.name in varying then Some(s.name) else if s.name in aliases then Some(aliases[s.name]) else None;
    t := if key.Some? then Slot(s.name, merged[key.value]) else s;
  }

  /** The first `i` slots are replaced, the rest untouched. */
  ghost predicate ReplacedUpTo(before: seq<Slot>, now: seq<Slot>, i: nat, aliases: map<string, string>, merged: Inputs,
                               varying: set<string>) {
    |now| == |before| && i <= |now| && now[i..] == before[i..] &&
    forall j :: 0 <= j < i ==> now[j] == Replaced(before[j], aliases, merged, varying)
  }

  lemma ReplacedNext(before: seq<Slot>, now: seq<Slot>, i: nat, aliases: map<string, string>, merged: Inputs,
                     varying: set<string>)
    requires ReplacedUpTo(before, now, i, aliases, merged, varying) && i < |now|
    ensures now[i] == before[i]
    ensures ReplacedUpTo(before, now[i := Replaced(now[i], aliases, merged, varying)], i + 1, aliases, merged, varying)
  {
    hide Replaced;
    assert now[i] == now[i..][0] && before[i] == before[i..][0];
    assert now[i + 1..] == now[i..][1..] && before[i + 1..] == before[i..][1..];
    assert now[i := Replaced(now[i], aliases, merged, varying)][i + 1..] == now[i + 1..];
  }

  /** The second loop: the chosen slots get the merged lists. */
  method ReplaceItems(slots: array<Slot>, aliases: map<string, string>, merged: Inputs, varying: set<string>)
    returns (hits: map<string, nat>)
    requires varying <= merged.Keys && forall l :: l in aliases ==> aliases[l] in varying
    modifies slots
    ensures ReplacedUpTo(old(slots[..]), slots[..], slots.Length, aliases, merged, varying)
    ensures Counted(hits, old(slots[..]), aliases, varying)
  {
    ghost var before := slots[..];
    hits := map k | k in varying :: 0;
    NothingCounted(hits, aliases, varying);
    assert before[..0] == [];
    assert ReplacedUpTo(before, before, 0, aliases, merged, varying);
    hide *;
    for i := 0 to slots.Length
      invariant ReplacedUpTo(before, slots[..], i, aliases, merged, varying)
      invariant Counted(hits, before[..i], aliases, varying)
    {
      CountNext(hits, before, i, aliases, varying);
      ReplacedNext(before, slots[..], i, aliases, merged, varying);
      var s, key := ReplaceOne(slots[i], aliases, merged, varying);
      ghost var next := slots[..][i := s];
      slots[i] := s;
      assert slots[..] == next;
      hits := CountHit(hits, key);
    }
    assert before[..slots.Length] == before;
  }

  lemma NothingCounted(hits: map<string, nat>, aliases: map<string, string>, varying: set<string>)
    requires hits == map k | k in varying :: 0
    ensures Counted(hits, [], aliases, varying)
  {
  }

  /** `_rewrite_varying_input_literals`, on the list literals of a private copy of the graph. */
  method RewriteLiterals(slots: array<Slot>, first: Inputs, merged: Inputs, varying: set<string>, inputOps: set<string>)
    returns (r: Result<map<string, nat>, RewriteError>)
    requires varying <= first.Keys && varying <= merged.Keys
    modifies slots
    ensures r.Ok? <==> Unambiguous(old(slots[..]), first, varying) && AllHit(old(slots[..]), first, varying, inputOps)
    ensures r.Ok? ==> slots[..] == Rewritten(old(slots[..]), first, merged, varying)
    ensures r.Ok? ==> Counted(r.value, old(slots[..]), Aliases(old(slots[..]), first, varying), varying)
  {
    ghost var before := slots[..];
    var inferred := InferAliases(slots[..], first, varying);
    if inferred.Err? {
      return Err(inferred.error);
    }
    AliasesVary(before, first, varying);
    hide Unambiguous, Aliases, Replaced, Hits;
    var hits := ReplaceItems(slots, inferred.value, merged, varying);
    assert slots[..] == Rewritten(before, first, merged, varying);
    var todo := varying;
    while todo != {}
      invariant todo <= varying
      invariant forall k :: k in varying - todo ==> k in inputOps || hits[k] > 0
    {
      var k :| k in todo;
      todo := todo - {k};
      if hits[k] == 0 && k !in inputOps {
        return Err(NoTarget(k));
      }
    }
    r := Ok(hits);
  }

  lemma AliasesVary(slots: seq<Slot>, first: Inputs, varying: set<string>)
    ensures forall l :: l in Aliases(slots, first, varying) ==> Aliases(slots, first, varying)[l] in varying
  {
  }

  // ---- parsing -----------------------------------------------------------------------------

  /** Where the parser takes a list literal from: an input, or the workflow text. */
  datatype Source = Bound(key: string) | Static(items: seq<string>)

  datatype Literal = Literal(name: string, source: Source)

  ghost predicate Closed(template: seq<Literal>, inputs: Inputs) {
    forall i :: 0 <= i < |template| && template[i].source.Bound? ==> template[i].source.key in inputs
  }

  /** The list literals of the graph that the workflow compiles to under the inputs. */
  ghost function Parsed(template: seq<Literal>, inputs: Inputs): (r: seq<Slot>)
    requires Closed(template, inputs)
    ensures |r| == |template|
  {
    seq(|template|, i requires 0 <= i < |template| =>
      Slot(template[i].name, match template[i].source case Bound(k) => inputs[k] case Static(items) => items))
  }

  /** The varying input a literal is taken from. */
  ghost function Due(l: Literal, varying: set<string>): Option<string> {
    if l.source.Bound? && l.source.key in varying then Some(l.source.key) else None
  }

  /** No label is shared by different bindings: a varying input's name labels only its own literals, and
      literals that share another name with a list equal to some varying input's first slice are all bound
      to that input. */
  ghost predicate NoClash(template: seq<Literal>, first: Inputs, varying: set<string>)
    requires Closed(template, first)
  {
    (forall i :: 0 <= i < |template| && template[i].name in varying ==> template[i].source == Bound(template[i].name)) &&
    forall i, j, k :: 0 <= i < |template| && 0 <= j < |template| && template[i].name == template[j].name &&
                      template[i].name !in varying && k in varying && k in first && first[k] == Parsed(template, first)[j].items ==>
                      Due(template[i], varying) == Some(k)
  }

  lemma {:induction false} AliasFromMatch(slots: seq<Slot>, first: Inputs, varying: set<string>, name: string)
    returns (j: nat)
    requires name in Aliases(slots, first, varying)
    ensures j < |slots| && slots[j].name == name
    ensures Aliases(slots, first, varying)[name] in Matches(first, varying, slots[j].items)
  {
    var n := |slots| - 1;
    if slots[n].name == name && slots[n].name !in varying && Matches(first, varying, slots[n].items) != {} {
      j := n;
    } else {
      j := AliasFromMatch(slots[..n], first, varying, name);
    }
  }

  lemma {:induction false} MatchHasAlias(slots: seq<Slot>, first: Inputs, varying: set<string>, j: nat)
    requires j < |slots| && slots[j].name !in varying && Matches(first, varying, slots[j].items) != {}
    ensures slots[j].name in Aliases(slots, first, varying)
  {
    if j < |slots| - 1 {
      MatchHasAlias(slots[..|slots| - 1], first, varying, j);
    }
  }

  ghost predicate ChoosesDue(template: seq<Literal>, first: Inputs, varying: set<string>)
    requires Closed(template, first)
  {
    var aliases := Aliases(Parsed(template, first), first, varying);
    forall i :: 0 <= i < |template| ==> Chosen(aliases, varying, template[i].name) == Due(template[i], varying)
  }

  lemma DueMatches(template: seq<Literal>, first: Inputs, varying: set<string>, i: nat)
    requires Closed(template, first) && i < |template| && Due(template[i], varying).Some?
    ensures Due(template[i], varying).value in Matches(first, varying, Parsed(template, first)[i].items)
  {
  }

  lemma NoClashChooses(template: seq<Literal>, first: Inputs, varying: set<string>)
    requires Closed(template, first) && NoClash(template, first, varying)
    ensures ChoosesDue(template, first, varying)
  {
    var slots := Parsed(template, first);
    var aliases := Aliases(slots, first, varying);
    hide Aliases;
    forall i | 0 <= i < |template| ensures Chosen(aliases, varying, template[i].name) == Due(template[i], varying) {
      var name := template[i].name;
      if name !in varying {
        if name in aliases {
          var j := AliasFromMatch(slots, first, varying, name);
        } else if Due(template[i], varying).Some? {
          DueMatches(template, first, varying, i);
          MatchHasAlias(slots, first, varying, i);
          assert false;
        }
      }
    }
  }

  lemma ChoosesNoClash(template: seq<Literal>, first: Inputs, varying: set<string>)
    requires Closed(template, first) && varying <= first.Keys && Unambiguous(Parsed(template, first), first, varying)
    requires ChoosesDue(template, first, varying)
    ensures NoClash(template, first, varying)
  {
    var slots := Parsed(template, first);
    hide Aliases;
    forall i, j, k | 0 <= i < |template| && 0 <= j < |template| && template[i].name == template[j].name &&
                     template[i].name !in varying && k in Matches(first, varying, slots[j].items)
      ensures Due(template[i], varying) == Some(k)
    {
      MatchHasAlias(slots, first, varying, j);
      OneMatch(first, varying, slots[j].items);
      SingleChoice(Matches(first, varying, slots[j].items), k);
      DueMatches(template, first, varying, j);
    }
  }

  // ---- rewriting is parsing with the merged inputs -----------------------------------------

  /** The merge of more slices: varying lists grow by the same number of rows, the rest stay. */
  ghost predicate Extends(first: Inputs, merged: Inputs, varying: set<string>) {
    merged.Keys == first.Keys && varying <= first.Keys && (forall k :: k in first.Keys - varying ==> merged[k] == first[k]) &&
    (forall k :: k in varying ==> first[k] < merged[k]) &&
    forall j, k :: j in varying && k in varying ==> |merged[j]| - |first[j]| == |merged[k]| - |first[k]|
  }

  ghost predicate Commutes(template: seq<Literal>, first: Inputs, merged: Inputs, varying: set<string>) {
    Closed(template, first) && Closed(template, merged) &&
    Rewritten(Parsed(template, first), first, merged, varying) == Parsed(template, merged)
  }

  /** The merge of a selection of a job's slices extends the inputs of its first slice. */
  lemma MergeExtends(inputs: Inputs, n: nat, slices: seq<Slice>)
    requires Selection(inputs, n, slices) && |slices| > 1
    ensures Joinable(slices) && Extends(slices[0].inputs, MergedOf(slices), Varying(inputs))
  {
    hide Selection, Joinable, MergedOf, Offset, Total, SliceOf, Mergeable, Lengths;
    SelectionMergeable(inputs, n, slices);
    MergedKeys(inputs, n, slices);
    FirstIsShorter(inputs, n, slices);
    forall k | k in inputs
      ensures k in MergedOf(slices) && k in slices[0].inputs
      ensures k !in Varying(inputs) ==> MergedOf(slices)[k] == slices[0].inputs[k]
      ensures k in Varying(inputs) ==> slices[0].inputs[k] < MergedOf(slices)[k]
      ensures k in Varying(inputs) ==>
        |MergedOf(slices)[k]| - |slices[0].inputs[k]| == Total(slices) - slices[0].length
    {
      MergeStarts(inputs, n, slices, k);
    }
  }

  lemma FirstIsShorter(inputs: Inputs, n: nat, slices: seq<Slice>)
    requires Selection(inputs, n, slices) && |slices| > 1
    ensures slices[0].length < Total(slices) && slices[0].inputs.Keys == inputs.Keys
  {
    OffsetNext(slices, 0);
    OffsetNext(slices, 1);
    OffsetInTotal(slices, 2);
    SelectionAt(inputs, n, slices, 1);
    assert SliceOf(inputs, n, slices[0]);
  }

  lemma MergeStarts(inputs: Inputs, n: nat, slices: seq<Slice>, k: string)
    requires Selection(inputs, n, slices) && slices != [] && Joinable(slices) && k in inputs
    requires slices[0].length < Total(slices)
    ensures k in MergedOf(slices) && k in slices[0].inputs
    ensures k !in Varying(inputs) ==> MergedOf(slices)[k] == slices[0].inputs[k]
    ensures k in Varying(inputs) ==> slices[0].inputs[k] < MergedOf(slices)[k] && |MergedOf(slices)[k]| == Total(slices)
    ensures k in Varying(inputs) ==> |slices[0].inputs[k]| == slices[0].length
  {
    hide Joinable, MergedOf, Offset, Total, SliceOf, Concat, Selection;
    MergedKey(inputs, n, slices, k);
    SelectionAt(inputs, n, slices, 0);
    SliceKey(inputs, n, slices[0], k);
    if k in Varying(inputs) {
      ConcatLength(slices, k);
      OffsetIsZero(slices);
      forall i | 0 <= i < slices[0].length ensures Concat(slices, k)[i] == slices[0].inputs[k][i] {
        ConcatAt(slices, k, 0, i);
      }
    }
  }

  lemma ChoosingCommutes(template: seq<Literal>, first: Inputs, merged: Inputs, varying: set<string>)
    requires Closed(template, first) && Extends(first, merged, varying) && ChoosesDue(template, first, varying)
    ensures Commutes(template, first, merged, varying)
  {
    var a, b := Rewritten(Parsed(template, first), first, merged, varying), Parsed(template, merged);
    hide Aliases;
    forall i | 0 <= i < |template| ensures a[i] == b[i] {
      assert Chosen(Aliases(Parsed(template, first), first, varying), varying, template[i].name) ==
             Due(template[i], varying);
    }
    assert a == b;
  }

  /** One more slice, of one row, with the given values. */
  ghost function OneMoreRow(first: Inputs, varying: set<string>, row: map<string, string>): (r: Inputs)
    requires varying <= first.Keys && varying <= row.Keys
    ensures Extends(first, r, varying)
  {
    map k | k in first :: if k in varying then first[k] + [row[k]] else first[k]
  }

  /** Where the merge commutes, the literal holds the chosen key's list. */
  lemma CommutesAt(template: seq<Literal>, first: Inputs, merged: Inputs, varying: set<string>, i: nat, key: string)
    requires Commutes(template, first, merged, varying) && i < |template| && key in merged
    requires Chosen(Aliases(Parsed(template, first), first, varying), varying, template[i].name) == Some(key)
    ensures Parsed(template, merged)[i].items == merged[key]
  {
    hide Aliases;
    assert Rewritten(Parsed(template, first), first, merged, varying)[i] == Slot(template[i].name, merged[key]);
  }

  ghost function Row(varying: set<string>, key: string, value: string): map<string, string> {
    map k | k in varying :: if k == key then value else ""
  }

  /** A literal that follows one key in every merge is bound to it: two values tell. */
  lemma FollowsIsDue(template: seq<Literal>, first: Inputs, varying: set<string>, i: nat, key: string)
    requires Closed(template, first) && varying <= first.Keys && i < |template| && key in varying
    requires forall merged :: Extends(first, merged, varying) ==>
      Closed(template, merged) && Parsed(template, merged)[i].items == merged[key]
    ensures Due(template[i], varying) == Some(key)
  {
    var a := OneMoreRow(first, varying, Row(varying, key, "0"));
    var b := OneMoreRow(first, varying, Row(varying, key, "1"));
    assert Parsed(template, a)[i].items == a[key] && Parsed(template, b)[i].items == b[key];
    assert a[key][|first[key]|] == "0" && b[key][|first[key]|] == "1";
  }

  lemma CommutingChooses(template: seq<Literal>, first: Inputs, varying: set<string>, i: nat)
    requires Closed(template, first) && varying <= first.Keys && i < |template|
    requires forall merged :: Extends(first, merged, varying) ==> Commutes(template, first, merged, varying)
    ensures Chosen(Aliases(Parsed(template, first), first, varying), varying, template[i].name) == Due(template[i], varying)
  {
    hide Aliases, Parsed, Rewritten;
    var slots := Parsed(template, first);
    var chosen := Chosen(Aliases(slots, first, varying), varying, template[i].name);
    if chosen.Some? {
      ChosenVaries(slots, first, varying, template[i].name);
      forall merged | Extends(first, merged, varying)
        ensures Closed(template, merged) && Parsed(template, merged)[i].items == merged[chosen.value]
      {
        assert Commutes(template, first, merged, varying);
        CommutesAt(template, first, merged, varying, i, chosen.value);
      }
      FollowsIsDue(template, first, varying, i, chosen.value);
    } else {
      UnchosenIsNotDue(template, first, varying, i);
    }
  }

  lemma UnchosenIsNotDue(template: seq<Literal>, first: Inputs, varying: set<string>, i: nat)
    requires Closed(template, first) && i < |template|
    requires Chosen(Aliases(Parsed(template, first), first, varying), varying, template[i].name) == None
    ensures Due(template[i], varying) == None
  {
    if Due(template[i], varying).Some? {
      DueMatches(template, first, varying, i);
      MatchHasAlias(Parsed(template, first), first, varying, i);
      assert false;
    }
  }

  lemma ChosenVaries(slots: seq<Slot>, first: Inputs, varying: set<string>, name: string)
    ensures Chosen(Aliases(slots, first, varying), varying, name).Some? ==>
            Chosen(Aliases(slots, first, varying), varying, name).value in varying
  {
  }

  /** Coalescing commutes with parsing. On a graph whose lists are unambiguous, rewriting slice 0's literals
      gives the literals of the merged inputs, whatever the later slices hold, exactly when no label clashes. */
  lemma RewritingIsParsing(template: seq<Literal>, first: Inputs, varying: set<string>)
    requires Closed(template, first) && varying <= first.Keys && Unambiguous(Parsed(template, first), first, varying)
    ensures (forall merged :: Extends(first, merged, varying) ==> Commutes(template, first, merged, varying)) <==>
            NoClash(template, first, varying)
  {
    if NoClash(template, first, varying) {
      NoClashChooses(template, first, varying);
      forall merged | Extends(first, merged, varying) ensures Commutes(template, first, merged, varying) {
        ChoosingCommutes(template, first, merged, varying);
      }
    }
    if forall merged :: Extends(first, merged, varying) ==> Commutes(template, first, merged, varying) {
      forall i | 0 <= i < |template| {
        CommutingChooses(template, first, varying, i);
      }
      ChoosesNoClash(template, first, varying);
    }
  }

  /** Where no label clashes, no list is ambiguous: its label is due to one input at most. */
  lemma NoClashIsUnambiguous(template: seq<Literal>, first: Inputs, varying: set<string>)
    requires Closed(template, first) && NoClash(template, first, varying)
    ensures Unambiguous(Parsed(template, first), first, varying)
  {
    var slots := Parsed(template, first);
    forall i, k, l | 0 <= i < |slots| && slots[i].name !in varying && k in varying && l in varying && k in first && l in first &&
                     first[k] == slots[i].items && first[l] == slots[i].items
      ensures k == l
    {
      assert template[i].name == slots[i].name;
      assert Due(template[i], varying) == Some(k) && Due(template[i], varying) == Some(l);
    }
  }

  /** Every varying input is bound by a literal or read by an input operator. */
  ghost predicate AllRead(template: seq<Literal>, varying: set<string>, inputOps: set<string>) {
    forall key :: key in varying ==> key in inputOps || Binds(template, key)
  }

  ghost predicate Binds(template: seq<Literal>, key: string) {
    exists i :: 0 <= i < |template| && template[i].source == Bound(key)
  }

  /** Where no label clashes, the rewrite finds a target for every varying input exactly when the workflow reads them
      all, whatever the first slice holds. */
  lemma HitsIff(template: seq<Literal>, first: Inputs, varying: set<string>, inputOps: set<string>)
    requires Closed(template, first) && NoClash(template, first, varying)
    ensures AllHit(Parsed(template, first), first, varying, inputOps) <==> AllRead(template, varying, inputOps)
  {
    NoClashChooses(template, first, varying);
    var slots := Parsed(template, first);
    var aliases := Aliases(slots, first, varying);
    hide Aliases, NoClash, Chosen;
    forall key | key in varying ensures Hits(slots, aliases, varying, key) > 0 <==> Binds(template, key) {
      forall i | 0 <= i < |template|
        ensures Chosen(aliases, varying, slots[i].name) == Some(key) <==> template[i].source == Bound(key)
      {
        assert Chosen(aliases, varying, template[i].name) == Due(template[i], varying);
      }
    }
  }

  /** A list in the workflow text that equals the first slice of an input is overwritten by the merge. */
  lemma StaticListIsCaptured()
    ensures var template := [Literal("price", Static(["7"]))];
            var first: Inputs := map["v" := ["7"]];
            var merged: Inputs := map["v" := ["7", "8"]];
            Closed(template, first) && Unambiguous(Parsed(template, first), first, {"v"}) && Extends(first, merged, {"v"}) &&
            !Commutes(template, first, merged, {"v"})
  {
    var template := [Literal("price", Static(["7"]))];
    var first: Inputs := map["v" := ["7"]];
    var merged: Inputs := map["v" := ["7", "8"]];
    var slots := Parsed(template, first);
    var matched := Matches(first, {"v"}, ["7"]);
    assert matched == {"v"};
    assert slots[..0] == [];
    assert Aliases(slots, first, {"v"})["price"] == "v";
    assert Rewritten(slots, first, merged, {"v"})[0].items == ["7", "8"];
    assert Parsed(template, merged)[0].items == ["7"];
  }

  /** Two inputs with equal values in the first slice are refused, although either binding alone is clear. */
  lemma EqualSlicesAreAmbiguous()
    ensures var template := [Literal("p", Bound("a")), Literal("q", Bound("b"))];
            var first: Inputs := map["a" := ["7"], "b" := ["7"]];
            Closed(template, first) && !Unambiguous(Parsed(template, first), first, {"a", "b"})
  {
    var template := [Literal("p", Bound("a")), Literal("q", Bound("b"))];
    var first: Inputs := map["a" := ["7"], "b" := ["7"]];
    assert Parsed(template, first)[0] == Slot("p", ["7"]);
    assert Matches(first, {"a", "b"}, ["7"]) == {"a", "b"};
  }
}
