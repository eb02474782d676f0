/** What the implicit format operators of a YAML document render: their templates, filled with the operators they are
    bound to (parser/yaml_parser.py:547-601, 893-970). */
module TemplateFilling {
  import opened Collections
  import opened Worklists
  import opened YamlEmission
  import S = OpSerialization
  import O = Ops

  // ---- filling a template ------------------------------------------------------------------

  /** The length of the text before the next closing brace. */
  function BeforeClose(t: string): (r: nat)
    ensures r <= |t|
  {
    if t == "" || t[0] == '}' then 0 else 1 + BeforeClose(t[1..])
  }

  /** `str.format` with named fields: every "{key}" is replaced by the value bound to the key. */
  function Fill(t: string, bound: map<string, string>): (r: string)
    decreases |t|
  {
    if t == "" then ""
    else if t[0] == '{' then
      var n := BeforeClose(t[1..]);
      var key := t[1..1 + n];
      (if key in bound then bound[key] else "") + Fill(if 1 + n < |t| then t[2 + n..] else "", bound)
    else [t[0]] + Fill(t[1..], bound)
  }

  /** A key without braces. */
  predicate Bare(key: string) {
    forall i :: 0 <= i < |key| ==> key[i] != '{' && key[i] != '}'
  }

  lemma {:induction false} CloseAfter(key: string, rest: string)
    requires Bare(key)
    ensures BeforeClose(key + "}" + rest) == |key|
  {
    if key == "" {
      assert (key + "}" + rest)[0] == '}';
    } else {
      assert (key + "}" + rest)[1..] == key[1..] + "}" + rest;
      CloseAfter(key[1..], rest);
    }
  }

  /** A field in front is filled. */
  lemma FillField(key: string, rest: string, bound: map<string, string>)
    requires Bare(key) && key in bound
    ensures Fill("{" + key + "}" + rest, bound) == bound[key] + Fill(rest, bound)
  {
    var t := "{" + key + "}" + rest;
    assert t[1..] == key + "}" + rest;
    CloseAfter(key, rest);
    assert t[1..1 + |key|] == key && t[2 + |key|..] == rest;
  }

  /** The fields of the arguments, in order. */
  function Fields(kwargs: seq<(string, Id)>): (r: string) {
    if kwargs == [] then "" else "{" + kwargs[0].0 + "}" + Fields(kwargs[1..])
  }

  function Concat(values: seq<string>): (r: string) {
    if values == [] then "" else values[0] + Concat(values[1..])
  }

  ghost predicate DistinctKeys(kwargs: seq<(string, Id)>) {
    forall i, j :: 0 <= i < j < |kwargs| ==> kwargs[i].0 != kwargs[j].0
  }

  /** The environment binds each argument to the value of its operator. */
  ghost predicate Binds(bound: map<string, string>, kwargs: seq<(string, Id)>, value: Id -> string) {
    forall i :: 0 <= i < |kwargs| ==> kwargs[i].0 in bound && bound[kwargs[i].0] == value(kwargs[i].1)
  }

  function ValuesOf(kwargs: seq<(string, Id)>, value: Id -> string): (r: seq<string>)
    ensures |r| == |kwargs|
  {
    seq(|kwargs|, i requires 0 <= i < |kwargs| => value(kwargs[i].1))
  }

  lemma {:induction false} FillFields(kwargs: seq<(string, Id)>, bound: map<string, string>, value: Id -> string)
    requires forall i :: 0 <= i < |kwargs| ==> Bare(kwargs[i].0)
    requires Binds(bound, kwargs, value)
    ensures Fill(Fields(kwargs), bound) == Concat(ValuesOf(kwargs, value))
  {
    if kwargs != [] {
      FillFields(kwargs[1..], bound, value);
      FillField(kwargs[0].0, Fields(kwargs[1..]), bound);
      assert ValuesOf(kwargs, value)[1..] == ValuesOf(kwargs[1..], value);
    }
  }

  // ---- the keys ----------------------------------------------------------------------------

  /** The number that a numeral stands for. */
  function Number(t: string): (r: int) {
    if t == "" then 0 else Number(t[..|t| - 1]) * 10 + (t[|t| - 1] as int - '0' as int)
  }

  lemma {:induction false} DecimalReads(n: nat)
    ensures Decimal(n) != "" && Number(Decimal(n)) == n && Bare(Decimal(n))
  {
    var digit := ['0' + (n % 10) as char];
    if n < 10 {
      assert digit[..0] == "";
    } else {
      DecimalReads(n / 10);
      assert Decimal(n)[..|Decimal(n)| - 1] == Decimal(n / 10);
      assert Bare(digit);
    }
  }

  /** The key of argument `k` is "ref" with its number. */
  lemma KeyReads(k: nat)
    ensures |RefKey(k)| > 3 && RefKey(k)[..3] == "ref" && Number(RefKey(k)[3..]) == k && Bare(RefKey(k))
  {
    DecimalReads(k);
    assert RefKey(k)[3..] == Decimal(k);
    assert Bare("ref");
  }

  lemma RefKwargsDistinct(ids: seq<Id>)
    ensures DistinctKeys(RefKwargs(ids)) && forall i :: 0 <= i < |ids| ==> Bare(RefKwargs(ids)[i].0)
  {
    forall i | 0 <= i < |ids| ensures Bare(RefKwargs(ids)[i].0) && Number(RefKwargs(ids)[i].0[3..]) == i {
      KeyReads(i);
    }
  }

  lemma {:induction false} FieldsSnoc(kwargs: seq<(string, Id)>, last: (string, Id))
    ensures Fields(kwargs + [last]) == Fields(kwargs) + "{" + last.0 + "}"
  {
    if kwargs == [] {
      assert [last][1..] == [];
      assert Fields([last]) == "{" + last.0 + "}" + "";
    } else {
      assert (kwargs + [last])[1..] == kwargs[1..] + [last];
      FieldsSnoc(kwargs[1..], last);
      assert "{" + kwargs[0].0 + "}" + (Fields(kwargs[1..]) + "{" + last.0 + "}") ==
             "{" + kwargs[0].0 + "}" + Fields(kwargs[1..]) + "{" + last.0 + "}";
    }
  }

  lemma {:induction false} TemplateIsFields(ids: seq<Id>)
    ensures RefTemplate(|ids|) == Fields(RefKwargs(ids))
  {
    if ids != [] {
      var n := |ids| - 1;
      TemplateIsFields(ids[..n]);
      assert RefKwargs(ids) == RefKwargs(ids[..n]) + [(RefKey(n), ids[n])];
      FieldsSnoc(RefKwargs(ids[..n]), (RefKey(n), ids[n]));
      assert Fields(RefKwargs(ids)) == Fields(RefKwargs(ids[..n])) + "{" + RefKey(n) + "}";
      assert RefTemplate(n) + "{" + RefKey(n) + "}" == RefTemplate(n + 1);
    }
  }

  // ---- the implicit operators --------------------------------------------------------------

  /** A format operator whose template is its own arguments, one behind the other, bound to these operators: filled,
      it is their values in order. */
  ghost predicate Joins(s: S.Serialized, ids: seq<Id>) {
    s.payload.FormatData? && s.payload.args == [] && s.payload.template == Fields(s.payload.kwargs) &&
    DistinctKeys(s.payload.kwargs) && O.KwargIds(s.payload.kwargs) == ids && Elems(s.inputs) == Elems(ids) &&
    Distinct(s.inputs) && forall value: Id -> string, bound: map<string, string> :: Binds(bound, s.payload.kwargs, value) ==>
      Fill(s.payload.template, bound) == Concat(seq(|ids|, i requires 0 <= i < |ids| => value(ids[i])))
  }

  lemma FormatJoins(id: Id, ids: seq<Id>)
    ensures Joins(ImplicitFormat(id, RefTemplate(|ids|), RefKwargs(ids)), ids)
  {
    hide *;
    var kwargs := RefKwargs(ids);
    TemplateIsFields(ids);
    RefKwargsDistinct(ids);
    RefIds(ids);
    forall value: Id -> string, bound: map<string, string> | Binds(bound, kwargs, value)
      ensures Fill(RefTemplate(|ids|), bound) == Concat(seq(|ids|, i requires 0 <= i < |ids| => value(ids[i])))
    {
      FillFields(kwargs, bound, value);
      RefValues(ids, value);
    }
    JoinsBy(id, RefTemplate(|ids|), kwargs, ids);
  }

  lemma RefIds(ids: seq<Id>)
    ensures O.KwargIds(RefKwargs(ids)) == ids
  {
    hide RefKey;
  }

  lemma RefValues(ids: seq<Id>, value: Id -> string)
    ensures ValuesOf(RefKwargs(ids), value) == seq(|ids|, i requires 0 <= i < |ids| => value(ids[i]))
  {
    hide RefKey;
  }

  lemma JoinsBy(id: Id, template: string, kwargs: seq<(string, Id)>, ids: seq<Id>)
    requires template == Fields(kwargs) && DistinctKeys(kwargs) && O.KwargIds(kwargs) == ids
    requires forall value: Id -> string, bound: map<string, string> :: Binds(bound, kwargs, value) ==>
      Fill(template, bound) == Concat(seq(|ids|, i requires 0 <= i < |ids| => value(ids[i])))
    ensures Joins(ImplicitFormat(id, template, kwargs), ids)
  {
    hide Fields, DistinctKeys, Binds, Fill, Concat, O.KwargIds, O.Dedup, Elems, Distinct;
  }

  /** The operators that user messages name, in the order of the messages, without the format operators. */
  ghost function Mentioned(messages: seq<Msg>, internal: map<Id, Id>, graph: Graph): (r: seq<Id>) {
    if messages == [] then []
    else
      var m := messages[|messages| - 1];
      Mentioned(messages[..|messages| - 1], internal, graph) +
      if m.role == "user" && m.content in internal &&
         !(Lookup(graph, internal[m.content]).Some? && Lookup(graph, internal[m.content]).value.FormatData?)
      then [internal[m.content]] else []
  }

  lemma {:induction false} MentionedAreWrapped(messages: seq<Msg>, internal: map<Id, Id>, graph: Graph)
    ensures WrappedIds(messages, internal, graph) == Mentioned(messages, internal, graph)
  {
    if messages != [] {
      MentionedAreWrapped(messages[..|messages| - 1], internal, graph);
    }
  }

  /** A call whose messages are written out gets one implicit format operator if any user message names an operator, and
      it renders the values of those operators in the order of the messages. Those messages become that operator, the
      others stay. */
  lemma WrappedRenders(messages: seq<Msg>, internal: map<Id, Id>, graph: Graph, format: Id)
    ensures var ids, formats := Mentioned(messages, internal, graph), FormatsOf(Inline(messages, None), internal, graph, format);
            if ids == [] then formats == []
            else |formats| == 1 && formats[0].id == format && formats[0].maxIter == None && Joins(formats[0], ids)
    ensures var prepared := Wrapped(messages, internal, graph, format);
            |prepared| == |messages| && forall i :: 0 <= i < |messages| ==>
              prepared[i].role == messages[i].role &&
              prepared[i].content == if Mentioned([messages[i]], internal, graph) == [] then messages[i].content else format
  {
    hide Joins, ImplicitFormat, RefTemplate, RefKwargs;
    MentionedAreWrapped(messages, internal, graph);
    FormatJoins(format, WrappedIds(messages, internal, graph));
    var ids := WrappedIds(messages, internal, graph);
    FormatId(format, RefTemplate(|ids|), RefKwargs(ids));
    forall i | 0 <= i < |messages|
      ensures Wrapped(messages, internal, graph, format)[i] ==
              if Mentioned([messages[i]], internal, graph) == [] then messages[i] else messages[i].(content := format)
    {
      assert [messages[i]][..0] == [];
    }
  }

  lemma FormatId(id: Id, template: string, kwargs: seq<(string, Id)>)
    ensures ImplicitFormat(id, template, kwargs).id == id && ImplicitFormat(id, template, kwargs).maxIter == None
  {
  }

  /** An image call whose content is no format operator gets one that renders the content's value. */
  lemma ImageRenders(op: Op, internal: map<Id, Id>, graph: Graph, implicit: Implicit)
    requires op.body.Image? && op.body.content in internal
    ensures var target, front := internal[op.body.content], FrontOf(op, internal, graph, implicit);
            if Lookup(graph, target).Some? && Lookup(graph, target).value.FormatData? then front == []
            else |front| == 1 && front[0].id == implicit.format && Joins(front[0], [target])
  {
    hide Joins, ImplicitFormat, RefTemplate, RefKwargs;
    FormatJoins(implicit.format, [internal[op.body.content]]);
    FormatId(implicit.format, RefTemplate(1), RefKwargs([internal[op.body.content]]));
  }
}
