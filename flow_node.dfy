/**
 * The vertex of the flow graph: it wraps either a syntax-tree node, with an
 * optional statement label, or a bare name such as "before" and "after".
 * Two vertices are the same vertex when they wrap the same node instance or
 * carry the same name; label and metadata play no part in that.
 */
module FlowNodes {
  import opened Wrappers

  /**
   * The instance a vertex wraps. A node of the method's own tree is known by
   * its position in the tree; a node the builder parses from text is known by a
   * serial number, unique per parse, together with the text it was parsed from.
   * Equal identities stand for the same instance, so this is reference equality.
   */
  datatype NodeId = AstPath(path: seq<nat>) | Parsed(serial: nat, text: string)

  /** What `equals` and `hashCode` look at. */
  datatype Key = NodeKey(id: NodeId) | NameKey(name: string)

  /** What a stored vertex carries besides its identity. */
  datatype VertexData = VertexData(stmtLabel: Option<string>, metadata: map<string, string>)

  datatype FlowNodeError = NeitherNodeNorName

  const TwoTo31: int := 0x8000_0000
  const TwoTo32: int := 0x1_0000_0000

  /** Reduction of an integer to Java's 32-bit `int`, as overflowing `int` arithmetic does. */
  function WrapInt(x: int): (r: int)
    ensures -TwoTo31 <= r < TwoTo31
    ensures (x - r) % TwoTo32 == 0
    ensures -TwoTo31 <= x < TwoTo31 ==> r == x
  {
    var m := x % TwoTo32;
    if m >= TwoTo31 then m - TwoTo32 else m
  }

  /**
   * The UTF-16 code units of a character, as a Java string stores it: one
   * unit below U+10000, a high and a low surrogate above.
   */
  function Utf16Units(c: char): (r: seq<int>)
    ensures c as int < 0x1_0000 ==> r == [c as int]
    ensures c as int >= 0x1_0000 ==>
              && |r| == 2
              && 0xD800 <= r[0] < 0xDC00 <= r[1] < 0xE000
              && (r[0] - 0xD800) * 0x400 + (r[1] - 0xDC00) + 0x1_0000 == c as int
  {
    var x := c as int;
    if x < 0x1_0000 then [x] else [0xD800 + (x - 0x1_0000) / 0x400, 0xDC00 + (x - 0x1_0000) % 0x400]
  }

  /** `h = 31 * h + u` over code units, in `int` arithmetic. */
  function HashUnits(h: int, us: seq<int>): (r: int)
    requires -TwoTo31 <= h < TwoTo31
    ensures -TwoTo31 <= r < TwoTo31
    ensures us == [] ==> r == h
    decreases |us|
  {
    if us == [] then h else HashUnits(WrapInt(31 * h + us[0]), us[1..])
  }

  /** Java's `String.hashCode`: the unit hash over the string's UTF-16 units. */
  function StringHash(s: string): (r: int)
    ensures -TwoTo31 <= r < TwoTo31
  {
    if |s| == 0 then 0 else HashUnits(StringHash(s[..|s| - 1]), Utf16Units(s[|s| - 1]))
  }

  class FlowNode {
    var node: Option<NodeId>
    var stmtLabel: Option<string>
    var name: Option<string>
    var metadata: map<string, string>

    /** Every constructor sets exactly one of node and name. */
    predicate Valid()
      reads this
    {
      node.Some? != name.Some?
    }

    /** `new FlowNode(node, label)`; the one-argument form passes no label. */
    constructor OfNode(n: NodeId, l: Option<string>)
      ensures Valid()
      ensures node == Some(n) && stmtLabel == l && name == None && metadata == map[]
    {
      node := Some(n);
      stmtLabel := l;
      name := None;
      metadata := map[];
    }

    /** `new FlowNode(name)`: a vertex that wraps no node and has no label. */
    constructor OfName(s: string)
      ensures Valid()
      ensures node == None && stmtLabel == None && name == Some(s) && metadata == map[]
    {
      node := None;
      stmtLabel := None;
      name := Some(s);
      metadata := map[];
    }

    method AddMetadata(key: string, value: string)
      modifies this
      ensures metadata == old(metadata)[key := value]
      ensures node == old(node) && stmtLabel == old(stmtLabel) && name == old(name)
      ensures GetMetadata(key) == Some(value)
      ensures forall k :: k != key ==> GetMetadata(k) == old(GetMetadata(k))
    {
      metadata := metadata[key := value];
    }

    /** The stored value, or None where Java's map returns null. */
    function GetMetadata(key: string): (r: Option<string>)
      reads this
      ensures r.Some? <==> key in metadata
      ensures r.Some? ==> r.value == metadata[key]
    {
      if key in metadata then Some(metadata[key]) else None
    }

    /**
     * `equals`: false for null; true when both wrap the same node; otherwise
     * true exactly when both carry the same name. (A Java object of another
     * class cannot be written here.)
     */
    function Equals(other: FlowNode?): (r: bool)
      reads this, other
      ensures r ==> other != null
      ensures r ==> node == other.node || name == other.name
    {
      if other == null then false
      else if node.Some? && other.node.Some? && node.value == other.node.value then true
      else name.Some? && other.name.Some? && name.value == other.name.value
    }

    /**
     * `hashCode`: the wrapped node's hash, else the name's string hash, else
     * an error. The node's own hash is JavaParser's and is a parameter here.
     */
    function HashCode(nodeHash: NodeId -> int): (r: Result<int, FlowNodeError>)
      reads this
      ensures r.Err? <==> node.None? && name.None?
      ensures node.Some? ==> r == Ok(nodeHash(node.value))
      ensures node.None? && name.Some? ==> r == Ok(StringHash(name.value))
    {
      if node.Some? then Ok(nodeHash(node.value))
      else if name.Some? then Ok(StringHash(name.value))
      else Err(NeitherNodeNorName)
    }

    /**
     * `toString`: a node-backed vertex renders its node, a name-backed one its
     * name. Rendering a node goes through JavaParser's printer, which is the
     * parameter `render` here.
     */
    function ToString(render: NodeId -> string): (r: Result<string, FlowNodeError>)
      reads this
      ensures node.None? && name.Some? ==> r == Ok(name.value)
      ensures r.Err? <==> node.None? && name.None?
    {
      if node.Some? then Ok(render(node.value))
      else if name.Some? then Ok(name.value)
      else Err(NeitherNodeNorName)
    }

    /** The identity this vertex is compared by. */
    function KeyOf(): (k: Key)
      requires Valid()
      reads this
      ensures node.Some? ==> k == NodeKey(node.value)
      ensures name.Some? ==> k == NameKey(name.value)
    {
      if node.Some? then NodeKey(node.value) else NameKey(name.value)
    }
  }

  // Properties of equality and hashing.

  lemma NodeBackedEquality(a: FlowNode, b: FlowNode)
    requires a.Valid() && b.Valid() && a.node.Some? && b.node.Some?
    ensures a.Equals(b) <==> a.node.value == b.node.value
  {
  }

  lemma NameBackedEquality(a: FlowNode, b: FlowNode)
    requires a.Valid() && b.Valid() && a.name.Some? && b.name.Some?
    ensures a.Equals(b) <==> a.name.value == b.name.value
  {
  }

  lemma NodeNeverEqualsName(a: FlowNode, b: FlowNode)
    requires a.Valid() && b.Valid() && a.node.Some? && b.name.Some?
    ensures !a.Equals(b) && !b.Equals(a)
  {
  }

  lemma NullNeverEqual(a: FlowNode)
    ensures !a.Equals(null)
  {
  }

  /** On constructed vertices, `equals` is equality of identities, so it is an equivalence. */
  lemma EqualsIsKeyEquality(a: FlowNode, b: FlowNode)
    requires a.Valid() && b.Valid()
    ensures a.Equals(b) <==> a.KeyOf() == b.KeyOf()
  {
  }

  /** Label and metadata do not take part: a labelled vertex equals the plain one for the same node. */
  lemma LabelIgnored(a: FlowNode, b: FlowNode)
    requires a.Valid() && b.Valid() && a.node.Some? && a.node == b.node && a.stmtLabel != b.stmtLabel
    ensures a.Equals(b) && b.Equals(a)
  {
  }

  /** Equal vertices hash alike, whatever hash JavaParser gives the nodes. */
  lemma HashConsistentWithEquals(a: FlowNode, b: FlowNode, nodeHash: NodeId -> int)
    requires a.Valid() && b.Valid() && a.Equals(b)
    ensures a.HashCode(nodeHash).Ok? && a.HashCode(nodeHash) == b.HashCode(nodeHash)
  {
  }

  /** A constructed vertex always has a hash. */
  lemma ValidHashes(a: FlowNode, nodeHash: NodeId -> int)
    requires a.Valid()
    ensures a.HashCode(nodeHash).Ok?
  {
  }

  /**
   * Java's hash of the empty string is 0; of a one-character string, its
   * code below U+10000 and the hash of its two surrogates above.
   */
  lemma ShortStringHashes(c: char)
    ensures StringHash("") == 0
    ensures c as int < 0x1_0000 ==> StringHash([c]) == c as int
    ensures c as int >= 0x1_0000 ==> StringHash([c]) == 31 * Utf16Units(c)[0] + Utf16Units(c)[1]
  {
    assert [c][..0] == "";
    var us := Utf16Units(c);
    if c as int >= 0x1_0000 {
      assert HashUnits(0, us) == HashUnits(WrapInt(us[0]), us[1..]);
      assert us[1..][1..] == [];
    }
  }

  /** `addMetadata` then `getMetadata` returns the stored value, overriding an earlier one. */
  method MetadataRoundTrip(n: FlowNode, key: string, v1: string, v2: string) returns (r: Option<string>)
    modifies n
    ensures r == Some(v2)
  {
    n.AddMetadata(key, v1);
    n.AddMetadata(key, v2);
    r := n.GetMetadata(key);
  }

  /** The "before" vertex renders as its name, whatever the node printer. */
  method NamedRendering(render: NodeId -> string) returns (r: Result<string, FlowNodeError>)
    ensures r == Ok("before")
  {
    var v := new FlowNode.OfName("before");
    r := v.ToString(render);
  }
}
