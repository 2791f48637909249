/**
 * `transformData`: turns the GraphQL response into the image descriptors
 * the wall takes, substituting a placeholder URL for an empty one. Any
 * TypeError thrown on the way (reading a property of null or undefined)
 * is caught and yields an empty list.
 */
module Transform {
  import opened Options

  const PLACEHOLDER_URL: string := "/images/dummyLogo.png"

  /** A JavaScript value as the response may carry it (NaN and symbols left out). */
  datatype JsValue =
    | Undefined
    | Null
    | Bool(b: bool)
    | Num(n: real)
    | Str(s: string)
    | Arr(items: seq<JsValue>)
    | Obj(fields: map<string, JsValue>)

  predicate Truthy(v: JsValue) {
    match v
    case Undefined => false
    case Null => false
    case Bool(b) => b
    case Num(n) => n != 0.0
    case Str(s) => s != ""
    case Arr(_) => true
    case Obj(_) => true
  }

  /**
   * Reading property `key` of `v`: None when that throws (`v` is null or
   * undefined), `Undefined` for a property the value does not have.
   */
  function Get(v: JsValue, key: string): (r: Option<JsValue>)
    ensures r.None? <==> v.Undefined? || v.Null?
  {
    match v
    case Undefined => None
    case Null => None
    case Obj(fields) => Some(if key in fields then fields[key] else Undefined)
    case Arr(items) => Some(if key == "length" then Num(|items| as real) else Undefined)
    case Str(s) => Some(if key == "length" then Num(|s| as real) else Undefined)
    case _ => Some(Undefined)
  }

  /** One output descriptor; fields are copied as they come, whatever their type. */
  datatype Entry = Entry(id: JsValue, imageUrl: JsValue, slug: JsValue)

  /** `data.allCollections.edges`, None when the chain throws. */
  function EdgesOf(data: JsValue): Option<JsValue> {
    match Get(data, "allCollections")
    case None => None
    case Some(collections) => Get(collections, "edges")
  }

  /**
   * The loop body for one edge: `edges[i].node`, its `id`, `imageUrl` and
   * `slug`, and the URL kept when its `length` is truthy. None when a step
   * throws.
   */
  function TransformEdge(edge: JsValue): (r: Option<Entry>)
    ensures (edge.Undefined? || edge.Null?) ==> r.None?
    ensures !(edge.Undefined? || edge.Null?) ==>
              var node := Get(edge, "node").value;
              (r.None? <==> node.Undefined? || node.Null? ||
                            Get(node, "imageUrl").value.Undefined? || Get(node, "imageUrl").value.Null?)
    ensures r.Some? ==>
              && !(edge.Undefined? || edge.Null?)
              && var node := Get(edge, "node").value;
              && !(node.Undefined? || node.Null?)
              && var url := Get(node, "imageUrl").value;
              && r.value.id == Get(node, "id").value
              && r.value.slug == Get(node, "slug").value
              && (url.Str? && url.s != "" ==> r.value.imageUrl == url)
              && (url == Str("") ==> r.value.imageUrl == Str(PLACEHOLDER_URL))
  {
    match Get(edge, "node")
    case None => None
    case Some(node) =>
      if node.Undefined? || node.Null? then None
      else
        var id := Get(node, "id").value;
        var imageUrl := Get(node, "imageUrl").value;
        var slug := Get(node, "slug").value;
        match Get(imageUrl, "length")
        case None => None
        case Some(len) =>
          var finalImageUrl := if Truthy(len) then imageUrl else Str(PLACEHOLDER_URL);
          Some(Entry(id, finalImageUrl, slug))
  }

  /** A node as the query intends it: three strings. */
  datatype Node = Node(id: string, slug: string, imageUrl: string)

  /** `edge` is `{ node: { id, slug, imageUrl } }` carrying `n` (other fields allowed). */
  predicate Carries(edge: JsValue, n: Node) {
    && edge.Obj? && "node" in edge.fields
    && var node := edge.fields["node"];
    && node.Obj?
    && "id" in node.fields && node.fields["id"] == Str(n.id)
    && "slug" in node.fields && node.fields["slug"] == Str(n.slug)
    && "imageUrl" in node.fields && node.fields["imageUrl"] == Str(n.imageUrl)
  }

  /** `data` is `{ allCollections: { edges: [...] } }` whose edges carry `nodes`, in order. */
  predicate Response(data: JsValue, nodes: seq<Node>) {
    && data.Obj? && "allCollections" in data.fields
    && var collections := data.fields["allCollections"];
    && collections.Obj? && "edges" in collections.fields
    && var edges := collections.fields["edges"];
    && edges.Arr? && |edges.items| == |nodes|
    && forall k :: 0 <= k < |nodes| ==> Carries(edges.items[k], nodes[k])
  }

  /** The descriptor a well-formed node should become: same id and slug, placeholder for an empty URL. */
  function Expected(n: Node): Entry {
    Entry(Str(n.id), Str(if n.imageUrl == "" then PLACEHOLDER_URL else n.imageUrl), Str(n.slug))
  }

  /** On a well-formed edge the loop body produces the intended descriptor. */
  lemma TransformEdgeOfNode(edge: JsValue, n: Node)
    requires Carries(edge, n)
    ensures TransformEdge(edge) == Some(Expected(n))
  {
  }

  /** When the loop ran over all edges of a well-formed response, it built the intended descriptors. */
  lemma ResponseEntries(data: JsValue, items: seq<JsValue>, result: seq<Entry>)
    requires EdgesOf(data) == Some(Arr(items))
    requires |result| == |items| && forall k :: 0 <= k < |items| ==> TransformEdge(items[k]) == Some(result[k])
    ensures forall nodes :: Response(data, nodes) ==>
              |result| == |nodes| && forall k :: 0 <= k < |nodes| ==> result[k] == Expected(nodes[k])
  {
    forall nodes | Response(data, nodes)
      ensures |result| == |nodes| && forall k :: 0 <= k < |nodes| ==> result[k] == Expected(nodes[k])
    {
      forall k | 0 <= k < |nodes|
        ensures result[k] == Expected(nodes[k])
      {
        TransformEdgeOfNode(items[k], nodes[k]);
      }
    }
  }

  /** A well-formed response has an array of edges, one per node. */
  lemma ResponseHasEdges(data: JsValue, nodes: seq<Node>)
    requires Response(data, nodes)
    ensures EdgesOf(data).Some? && EdgesOf(data).value.Arr? && |EdgesOf(data).value.items| == |nodes|
  {
  }

  /** An edge on which the loop body throws rules out a well-formed response. */
  lemma ThrowingEdgeRulesOutResponse(data: JsValue, items: seq<JsValue>, i: nat)
    requires EdgesOf(data) == Some(Arr(items))
    requires i < |items| && TransformEdge(items[i]).None?
    ensures forall nodes :: !Response(data, nodes)
  {
    forall nodes | Response(data, nodes)
      ensures false
    {
      TransformEdgeOfNode(items[i], nodes[i]);
    }
  }

  /**
   * `transformData`. Undefined for a falsy argument. Otherwise a list: the
   * intended descriptors, in order, for a well-formed response; empty when
   * `allCollections` is missing or `edges` cannot be read as an array, and
   * empty, with nothing kept from earlier edges, when any edge throws.
   */
  method TransformData(data: JsValue) returns (r: Option<seq<Entry>>)
    ensures r.None? <==> !Truthy(data)
    ensures forall nodes :: Response(data, nodes) ==>
              r.Some? && |r.value| == |nodes| &&
              forall k :: 0 <= k < |nodes| ==> r.value[k] == Expected(nodes[k])
    ensures Truthy(data) && data.Obj? && "allCollections" !in data.fields ==> r == Some([])
    ensures Truthy(data) && (EdgesOf(data).None? || !EdgesOf(data).value.Arr?) ==> r == Some([])
    ensures Truthy(data) && EdgesOf(data).Some? && EdgesOf(data).value.Arr? &&
            (forall k :: 0 <= k < |EdgesOf(data).value.items| ==> TransformEdge(EdgesOf(data).value.items[k]).Some?)
            ==> r.Some? && |r.value| == |EdgesOf(data).value.items| &&
                forall k :: 0 <= k < |r.value| ==> Some(r.value[k]) == TransformEdge(EdgesOf(data).value.items[k])
    ensures Truthy(data) && EdgesOf(data).Some? && EdgesOf(data).value.Arr? &&
            (exists k :: 0 <= k < |EdgesOf(data).value.items| && TransformEdge(EdgesOf(data).value.items[k]).None?)
            ==> r == Some([])
  {
    if !Truthy(data) {
      return None;
    }
    var edges := EdgesOf(data);
    if edges.None? || !edges.value.Arr? {
      forall nodes | Response(data, nodes)
        ensures false
      {
        ResponseHasEdges(data, nodes);
      }
      return Some([]);
    }
    var items := edges.value.items;
    var result: seq<Entry> := [];
    var i := 0;
    while i < |items|
      invariant 0 <= i <= |items|
      invariant |result| == i
      invariant forall k :: 0 <= k < i ==> TransformEdge(items[k]) == Some(result[k])
    {
      var entry := TransformEdge(items[i]);
      if entry.None? {
        ThrowingEdgeRulesOutResponse(data, items, i);
        return Some([]);
      }
      result := result + [entry.value];
      i := i + 1;
    }
    ResponseEntries(data, items, result);
    return Some(result);
  }
}
