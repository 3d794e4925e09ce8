/** The manager's own code: the loops that own the map of registered requests. */
module ConnManager {
  import opened Wrappers
  import opened RequestProxy

  /** A channel with room for one package. */
  class RspChan {
    var buffer: Option<Package>

    constructor ()
      ensures buffer.None?
    {
      buffer := None;
    }

    /** Would block if the buffer were full. */
    method Send(pkg: Package)
      requires buffer.None?
      modifies this
      ensures buffer == Some(pkg)
    {
      buffer := Some(pkg);
    }
  }

  class Request {
    const isCancel: bool
    const reqSeq: int
    const reqPkg: Package
    const rspChan: RspChan

    constructor (isCancel: bool, reqSeq: int, reqPkg: Package, rspChan: RspChan)
      ensures this.isCancel == isCancel && this.reqSeq == reqSeq && this.reqPkg == reqPkg && this.rspChan == rspChan
    {
      this.isCancel, this.reqSeq, this.reqPkg, this.rspChan := isCancel, reqSeq, reqPkg, rspChan;
    }
  }

  /** The loops of the UDP and the TCP manager, one method per case of their select statements. */
  class ConnMgr {
    var reqMap: map<int, Request>
    var sendChan: seq<Package>

    ghost function Channels(): set<RspChan>
      reads this`reqMap
    {
      set k | k in reqMap :: reqMap[k].rspChan
    }

    /** Every registered request is under its own number and has an empty channel of its own. */
    ghost predicate Valid()
      reads this`reqMap, Channels()
    {
      && (forall k <- reqMap :: reqMap[k].reqSeq == k && reqMap[k].rspChan.buffer.None?)
      && (forall k <- reqMap, l <- reqMap :: k != l ==> reqMap[k].rspChan != reqMap[l].rspChan)
    }

    constructor ()
      ensures Valid() && reqMap == map[] && sendChan == []
    {
      reqMap, sendChan := map[], [];
    }

    method OnRequest(req: Request)
      requires Valid()
      requires !req.isCancel ==> req.rspChan.buffer.None? && req.rspChan !in Channels()
      modifies this
      ensures Valid()
      ensures reqMap == Taken(old(reqMap), req.isCancel, req.reqSeq, req)
      ensures sendChan == old(sendChan) + if req.isCancel then [] else [req.reqPkg]
    {
      if req.isCancel {
        reqMap := reqMap - {req.reqSeq};
        return;
      }
      reqMap := reqMap[req.reqSeq := req];
      sendChan := sendChan + [req.reqPkg];
    }

    /** UDP: one package, unless it could not be unpacked. */
    method OnDatagram(unpacked: Option<(int, Package)>)
      requires Valid()
      modifies this`reqMap, Channels()
      ensures Valid()
      ensures reqMap == if unpacked.Some? then Dropped(old(reqMap), unpacked.value.0) else old(reqMap)
      ensures forall k <- old(reqMap) :: old(reqMap)[k].rspChan.buffer ==
                if unpacked.Some? && unpacked.value.0 == k then Some(unpacked.value.1) else None
    {
      if unpacked.None? {
        return;
      }
      var (seqno, rspPkg) := unpacked.value;
      if seqno !in reqMap {
        return;
      }
      var req := reqMap[seqno];
      req.rspChan.Send(rspPkg);
      reqMap := reqMap - {req.reqSeq};
    }

    /** TCP: several packages, which the range over the map visits in an arbitrary order. */
    method OnStream(rsp: map<int, Package>, order: seq<int>)
      requires Valid()
      requires forall k :: k in order <==> k in rsp
      requires forall i, j :: 0 <= i < j < |order| ==> order[i] != order[j]
      modifies this`reqMap, Channels()
      ensures Valid()
      ensures forall k :: k in reqMap <==> k in old(reqMap) && k !in rsp
      ensures forall k <- reqMap :: reqMap[k] == old(reqMap)[k]
      ensures forall k <- old(reqMap) :: old(reqMap)[k].rspChan.buffer == if k in rsp then Some(rsp[k]) else None
    {
      for i := 0 to |order|
        invariant Valid()
        invariant forall k :: k in reqMap <==> k in old(reqMap) && k !in order[..i]
        invariant forall k <- reqMap :: reqMap[k] == old(reqMap)[k]
        invariant forall k <- old(reqMap) ::
                    old(reqMap)[k].rspChan.buffer == if k in order[..i] then Some(rsp[k]) else None
      {
        var seqno := order[i];
        assert seqno !in order[..i] && order[..i + 1] == order[..i] + [seqno] && seqno in order;
        if seqno !in reqMap {
          continue;
        }
        var req := reqMap[seqno];
        req.rspChan.Send(rsp[seqno]);
        reqMap := reqMap - {req.reqSeq};
      }
      assert order[..|order|] == order;
    }
  }
}
