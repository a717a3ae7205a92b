/** EC tags and packets: a tag has a name, a typed value and any number of child tags
    (core/ec/tag.h, core/ec/packet.h). Text is held as the bytes it has on the wire. */
module Tags {
  import opened Outcomes
  import opened Bytes

  type Hash16 = h: seq<byte> | |h| == 16 witness seq(16, _ => 0)
  type Ip4 = a: seq<byte> | |a| == 4 witness [0, 0, 0, 0]

  datatype TagValue =
    | Empty
    | Opaque(data: seq<byte>)
    | Int(v: u64)
    | Str(text: seq<byte>)
    | Hash(hash: Hash16)
    | Ipv4(ip: Ip4, port: u16)
    | Double(digits: seq<byte>)  // the decimal text; its numeric reading is not modelled

  datatype Tag = Tag(name: u16, value: TagValue, children: seq<Tag>) {
    function AsInt(): Option<u64> {
      if value.Int? then Some(value.v) else None
    }

    function AsString(): Option<seq<byte>> {
      if value.Str? then Some(value.text) else None
    }

    function Child(childName: u16): (c: Option<Tag>)
      ensures c.Some? <==> exists i :: 0 <= i < |children| && children[i].name == childName
      ensures c.Some? ==> c.value in children && c.value.name == childName
    {
      FirstNamed(children, childName)
    }

    function ChildInt(childName: u16): Option<u64> {
      var c := Child(childName);
      if c.Some? then c.value.AsInt() else None
    }

    function ChildString(childName: u16): Option<seq<byte>> {
      var c := Child(childName);
      if c.Some? then c.value.AsString() else None
    }
  }

  datatype Packet = Packet(opcode: byte, tags: seq<Tag>)

  /** The first tag of the list with this name. */
  function FirstNamed(ts: seq<Tag>, name: u16): (t: Option<Tag>)
    ensures t.Some? <==> exists i :: 0 <= i < |ts| && ts[i].name == name
    ensures t.Some? ==> exists i :: 0 <= i < |ts| && t == Some(ts[i]) && ts[i].name == name
                                     && forall j :: 0 <= j < i ==> ts[j].name != name
  {
    if ts == [] then None
    else if ts[0].name == name then assert ts[0] == ts[0]; Some(ts[0])
    else
      var r := FirstNamed(ts[1..], name);
      assert forall i :: 0 < i < |ts| ==> ts[i] == ts[1..][i - 1];
      assert r.Some? ==> exists i :: 0 <= i < |ts| && r == Some(ts[i]) && ts[i].name == name
                                     && forall j :: 0 <= j < i ==> ts[j].name != name by {
        if r.Some? {
          var i :| 0 <= i < |ts[1..]| && r == Some(ts[1..][i]) && ts[1..][i].name == name
                   && forall j :: 0 <= j < i ==> ts[1..][j].name != name;
          assert r == Some(ts[i + 1]);
        }
      }
      r
  }
}
