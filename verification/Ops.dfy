/** The op DAG that both parsers produce (ops/data_ops.py, ops/util_ops.py, ops/llm_ops.py),
    restricted to what lowering reads, and the insertion-ordered dictionary it writes. */
module Ops {
  import opened Collections

  type Id = string

  datatype Role = System | User | Assistant

  /** `Roles(role).value`. */
  function RoleName(role: Role): (r: string) {
    match role
    case System => "system"
    case User => "user"
    case Assistant => "assistant"
  }

  /** `Roles(role)`: the enumeration accepts three names, and each role renders as its name. */
  function ParseRole(name: string): (r: Option<Role>)
    ensures r.Some? <==> name == "system" || name == "user" || name == "assistant"
    ensures r.Some? ==> RoleName(r.value) == name
  {
    if name == "system" then Some(System)
    else if name == "user" then Some(User)
    else if name == "assistant" then Some(Assistant)
    else None
  }

  datatype Content = Literal(text: string) | Ref(id: Id)

  datatype OpMessage = OpMessage(role: string, content: Content)

  /** `Generator` stands for every LLMOp; only a chat op can return its history. `OtherOp` is
      any class the trace does not know. */
  datatype Op =
    | InputOp(name: string)
    | DataOp(data: seq<string>)
    | RetrievalOp(mode: string)
    | Generator(returnHistory: bool)
    | MessageOp(messages: seq<OpMessage>)
    | FormatOp(template: string, args: seq<Id>, kwargs: seq<(string, Id)>)
    | LambdaOp(code: string, inputs: seq<Id>)
    | OtherOp

  /** Keep first occurrences: the `inputs.index(...)` loop of the op constructors. */
  function Dedup(ids: seq<Id>): (r: seq<Id>)
    ensures Elems(r) == Elems(ids) && Distinct(r)
  {
    if ids == [] then []
    else
      var init, last := Dedup(ids[..|ids| - 1]), ids[|ids| - 1];
      assert ids == ids[..|ids| - 1] + [last];
      assert Elems(ids) == Elems(ids[..|ids| - 1]) + {last};
      if last in init then init
      else
        assert Elems(init + [last]) == Elems(init) + {last};
        init + [last]
  }

  function KwargIds(kwargs: seq<(string, Id)>): (r: seq<Id>)
    ensures |r| == |kwargs| && forall i :: 0 <= i < |r| ==> r[i] == kwargs[i].1
  {
    seq(|kwargs|, i requires 0 <= i < |kwargs| => kwargs[i].1)
  }

  function MessageRefs(messages: seq<OpMessage>): (r: seq<Id>)
    ensures forall c :: c in r <==> exists i :: 0 <= i < |messages| && messages[i].content == Ref(c)
  {
    if messages == [] then []
    else
      var init, last := messages[..|messages| - 1], messages[|messages| - 1];
      assert messages == init + [last];
      MessageRefs(init) + (if last.content.Ref? then [last.content.id] else [])
  }

  /** The inputs the trace follows. It stops at generators and retrievals. */
  function Children(op: Op): (r: seq<Id>) {
    match op
    case MessageOp(messages) => MessageRefs(messages)
    case FormatOp(_, args, kwargs) => Dedup(args + KwargIds(kwargs))
    case LambdaOp(_, inputs) => inputs
    case _ => []
  }

  type Dag = map<Id, Op>

  /** A DAG with the rank that descends along references, and the compiled input lists. */
  datatype Scope = Scope(g: Dag, rank: Id -> nat, inputs: map<string, seq<string>>) {
    /** The DAG holds every op it refers to and has no cycle. `Graph` establishes this by
        sorting (graphs/graph.py:161-167). */
    ghost predicate Ranked() {
      forall id, c :: id in g && c in Children(g[id]) ==> c in g && rank(c) < rank(id)
    }

    /** All of `ids` are in the DAG, below `bound`. */
    ghost predicate Below(ids: seq<Id>, bound: nat) {
      forall c :: c in ids ==> c in g && rank(c) < bound
    }
  }

  /** A Python dict: values, and keys in insertion order. */
  datatype Dict<V> = Dict(keys: seq<string>, vals: map<string, V>) {
    ghost predicate Valid() {
      Distinct(keys) && forall k :: k in keys <==> k in vals
    }

    function Put(k: string, v: V): (r: Dict<V>)
      ensures Valid() ==> r.Valid()
      ensures r.vals == vals[k := v]
      ensures r.keys == if k in vals then keys else keys + [k]
    {
      Dict(if k in vals then keys else keys + [k], vals[k := v])
    }
  }
}
