/** Devices by id: ids go out in base ten and come back as path texts. Nodes keep only what the id round trip needs. */
module Devices {
  import opened Machine
  import opened Wrappers
  import opened Upstream
  import Decimal

  datatype Node = Node(id: UInt64, name: string)

  datatype Device = Device(id: string, name: string)

  datatype Op = GetOne | DeleteOne | RenameOne(name: Option<string>)

  datatype Response = Error(status: nat) | OneDevice(device: Device) | Ok

  function NodeToDevice(n: Node): Device {
    Device(Decimal.Format(n.id), n.name)
  }

  function NodeIds(nodes: seq<Node>): seq<UInt64> {
    seq(|nodes|, i requires 0 <= i < |nodes| => nodes[i].id)
  }

  ghost predicate DistinctNodes(nodes: seq<Node>) {
    forall i, j :: 0 <= i < j < |nodes| ==> nodes[i].id != nodes[j].id
  }

  /** GetNode, DeleteNode and RenameNode on headscale. */
  function Perform(nodes: seq<Node>, op: Op, id: UInt64): (seq<Node>, Response)
    requires op != RenameOne(None)
  {
    match Decimal.FindId(NodeIds(nodes), id)
    case None => (nodes, Error(HttpStatus(NotFound)))
    case Some(i) =>
      match op
      case GetOne => (nodes, OneDevice(NodeToDevice(nodes[i])))
      case DeleteOne => (nodes[..i] + nodes[i + 1..], Ok)
      case RenameOne(name) =>
        var n := nodes[i].(name := name.value);
        (nodes[i := n], OneDevice(NodeToDevice(n)))
  }

  /** A request on one device: the path text must parse, then the body must decode, then the call goes out. */
  function Served(nodes: seq<Node>, op: Op, raw: string, f: Fault): (seq<Node>, Response) {
    match Decimal.Parse(raw)
    case None => (nodes, Error(400))
    case Some(id) =>
      if op == RenameOne(None) then (nodes, Error(400))
      else match f
        case Fine => Perform(nodes, op, id)
        case Lost(code) => (nodes, Error(HttpStatus(code)))
        case ReplyLost(code) => (Perform(nodes, op, id).0, Error(HttpStatus(code)))
  }

  /** Every listed id addresses exactly the device it was listed with. */
  lemma ListedIsAddressed(nodes: seq<Node>, i: nat, name: string)
    requires DistinctNodes(nodes) && i < |nodes|
    ensures var d := Device(Decimal.Format(nodes[i].id), nodes[i].name);
            && Served(nodes, GetOne, d.id, Fine) == (nodes, OneDevice(d))
            && Served(nodes, DeleteOne, d.id, Fine) == (nodes[..i] + nodes[i + 1..], Ok)
            && Served(nodes, RenameOne(Some(name)), d.id, Fine)
               == (nodes[i := nodes[i].(name := name)], OneDevice(d.(name := name)))
  {
    var ids, id := NodeIds(nodes), nodes[i].id;
    Decimal.ParseFormat(id);
    var found := Decimal.FindId(ids, id);
    assert ids[i] == id;
    assert found == Some(i);
  }

  /** What a request that does not get through is answered, and what it leaves behind: 400 for a path that is no number
      and, after that, for a body that does not decode; the status of an error of the call; 404 for a number that is no
      device's. Only where the reply alone was lost is anything changed, and then as if it had not been. */
  lemma Refused(nodes: seq<Node>, op: Op, raw: string, f: Fault)
    ensures var (nodes', resp) := Served(nodes, op, raw, f);
            var id := Decimal.Parse(raw);
            if id.None? || op == RenameOne(None) then nodes' == nodes && resp == Error(400)
            else
              && (!f.Fine? ==> resp.Error? && SeenAs(f.code, resp.status))
              && (f.Lost? ==> nodes' == nodes)
              && (f.ReplyLost? ==> nodes' == Served(nodes, op, raw, Fine).0)
              && ((forall n :: n in nodes ==> n.id != id.value) ==> nodes' == nodes && (f.Fine? ==> resp == Error(404)))
  {
    if Decimal.Parse(raw).Some? {
      var found := Decimal.FindId(NodeIds(nodes), Decimal.Parse(raw).value);
      assert found.Some? ==> nodes[found.value] in nodes;
    }
  }

  /** No request, however its path is written and however its call fails, touches a device with another id. */
  lemma OthersUntouched(nodes: seq<Node>, op: Op, raw: string, f: Fault, j: nat)
    requires j < |nodes| && Decimal.Parse(raw) != Some(nodes[j].id)
    ensures nodes[j] in Served(nodes, op, raw, f).0
    ensures Served(nodes, op, raw, f).1.OneDevice? ==>
            Served(nodes, op, raw, f).1.device.id != Decimal.Format(nodes[j].id)
  {
    hide Perform;
    match Decimal.Parse(raw)
    case None =>
    case Some(id) =>
      if op != RenameOne(None) {
        OthersKept(nodes, op, id, j);
      }
  }

  lemma OthersKept(nodes: seq<Node>, op: Op, id: UInt64, j: nat)
    requires op != RenameOne(None) && j < |nodes| && nodes[j].id != id
    ensures nodes[j] in Perform(nodes, op, id).0
    ensures Perform(nodes, op, id).1.OneDevice? ==>
            Perform(nodes, op, id).1.device.id != Decimal.Format(nodes[j].id)
  {
    var found := Decimal.FindId(NodeIds(nodes), id);
    if found.Some? {
      var i := found.value;
      Decimal.FormatInjective(nodes[i].id, nodes[j].id);
      StillThere(nodes, i, j, if op.RenameOne? then nodes[i].(name := op.name.value) else nodes[i]);
    }
    hide Decimal.Format;
    hide Decimal.FindId;
  }

  lemma StillThere(nodes: seq<Node>, i: nat, j: nat, n: Node)
    requires i < |nodes| && j < |nodes| && i != j
    ensures nodes[j] in nodes[..i] + nodes[i + 1..]
    ensures nodes[j] in nodes[i := n]
  {
    if j < i {
      assert (nodes[..i] + nodes[i + 1..])[j] == nodes[j];
    } else {
      assert (nodes[..i] + nodes[i + 1..])[j - 1] == nodes[j];
    }
    assert nodes[i := n][j] == nodes[j];
  }

  class DevicesHandler {
    /** The nodes headscale holds. */
    var nodes: seq<Node>

    constructor (nodes: seq<Node>)
      ensures this.nodes == nodes
    {
      this.nodes := nodes;
    }

    method ListDevices(f: Fault) returns (r: Result<seq<Device>, Response>)
      ensures !f.Fine? ==> r == Failure(Error(HttpStatus(f.code)))
      ensures f.Fine? ==> r.Success? && |r.value| == |nodes|
                          && forall i :: 0 <= i < |nodes| ==>
                               r.value[i] == Device(Decimal.Format(nodes[i].id), nodes[i].name)
    {
      if !f.Fine? {
        return Failure(Error(HttpStatus(f.code)));
      }
      var devices := [];
      for i := 0 to |nodes|
        invariant |devices| == i && forall j :: 0 <= j < i ==> devices[j] == NodeToDevice(nodes[j])
      {
        devices := devices + [NodeToDevice(nodes[i])];
      }
      r := Success(devices);
    }

    method GetDevice(raw: string, f: Fault) returns (resp: Response)
      ensures (nodes, resp) == Served(nodes, GetOne, raw, f)
    {
      var id := Decimal.Parse(raw);
      if id.None? {
        return Error(400);
      }
      if !f.Fine? {
        return Error(HttpStatus(f.code));
      }
      resp := Perform(nodes, GetOne, id.value).1;
    }

    method DeleteDevice(raw: string, f: Fault) returns (resp: Response)
      modifies this
      ensures (nodes, resp) == Served(old(nodes), DeleteOne, raw, f)
    {
      var id := Decimal.Parse(raw);
      if id.None? {
        return Error(400);
      }
      resp := Call(DeleteOne, id.value, f);
    }

    /** body is None when it does not decode. */
    method RenameDevice(raw: string, body: Option<string>, f: Fault) returns (resp: Response)
      modifies this
      ensures (nodes, resp) == Served(old(nodes), RenameOne(body), raw, f)
    {
      var id := Decimal.Parse(raw);
      if id.None? {
        return Error(400);
      }
      if body.None? {
        return Error(400);
      }
      resp := Call(RenameOne(body), id.value, f);
    }

    /** A state-changing call to headscale. */
    method Call(op: Op, id: UInt64, f: Fault) returns (resp: Response)
      requires op != RenameOne(None)
      modifies this
      ensures nodes == (if f.Lost? then old(nodes) else Perform(old(nodes), op, id).0)
      ensures resp == (if f.Fine? then Perform(old(nodes), op, id).1 else Error(HttpStatus(f.code)))
    {
      if f.Lost? {
        return Error(HttpStatus(f.code));
      }
      var (nodes', answer) := Perform(nodes, op, id);
      nodes := nodes';
      resp := if f.Fine? then answer else Error(HttpStatus(f.code));
    }

    /** List, take any id shown, delete by it: that device goes and no other. */
    method ListThenDelete(i: nat) returns (resp: Response)
      requires DistinctNodes(nodes) && i < |nodes|
      modifies this
      ensures resp == Ok && nodes == old(nodes)[..i] + old(nodes)[i + 1..]
    {
      var listed := ListDevices(Fine);
      ListedIsAddressed(nodes, i, "");
      resp := DeleteDevice(listed.value[i].id, Fine);
    }
  }
}
