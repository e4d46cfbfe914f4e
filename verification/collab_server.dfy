/**
 * The server of examples/server.rs, which also shares cursor positions: its
 * registry keeps, for each client, the stream written to it, its last known
 * position and whether it asked for position updates. Streams hold the
 * messages written to them, in order; the wire text of `CollabPosSet` is not
 * part of this model.
 */
module CollabServer {
  import opened Basics
  import opened Versions
  import opened CanvasGrid
  import CanvasObject
  import Server

  /** `CollabId` is a `u8`. */
  type CollabId = u8

  /** The messages this server writes. */
  datatype Message =
    | CharSet(x: usize, y: usize, c: char)
    | CollabPosSet(id: CollabId, x: usize, y: usize)

  /** A registry entry: the stream, the last position the client reported, and whether it wants position updates. */
  datatype ClientInfo = ClientInfo(stream: seq<Message>, pos: (usize, usize), wantsPosUpdates: bool)

  /** `ClientInfo::new`: a client at the origin that has not asked for position updates. */
  function NewInfo(stream: seq<Message>): (info: ClientInfo)
    ensures info.stream == stream && info.pos == (0, 0) && !info.wantsPosUpdates
  {
    ClientInfo(stream, (0, 0), false)
  }

  /** `msg` written to every target's stream; positions, flags and the other streams as they were. */
  function Deliver(list: map<CollabId, ClientInfo>, targets: set<CollabId>, msg: Message): (r: map<CollabId, ClientInfo>)
    ensures r.Keys == list.Keys
  {
    map u | u in list :: if u in targets then list[u].(stream := list[u].stream + [msg]) else list[u]
  }

  /** The clients other than `ignore` that `wanted` accepts: whom `filter_send` writes to. */
  function Chosen(list: map<CollabId, ClientInfo>, wanted: ClientInfo -> bool, ignore: CollabId): (ids: set<CollabId>)
    ensures forall u :: u in ids <==> u in list && u != ignore && wanted(list[u])
  {
    set u | u in list && u != ignore && wanted(list[u])
  }

  /** What `update_pos` leaves in the registry: `id` at its new position, and its move sent to the others that want it. */
  function PosUpdated(list: map<CollabId, ClientInfo>, id: CollabId, x: usize, y: usize): map<CollabId, ClientInfo>
    requires id in list
  {
    var moved := list[id := list[id].(pos := (x, y))];
    Deliver(moved, Chosen(moved, (c: ClientInfo) => c.wantsPosUpdates, id), CollabPosSet(id, x, y))
  }

  /** One `CollabPosSet` per registered client other than `self`, carrying that client's stored position. */
  function Snapshot(list: map<CollabId, ClientInfo>, self: CollabId): set<Message> {
    set u | u in list && u != self :: CollabPosSet(u, list[u].pos.0, list[u].pos.1)
  }

  /** The registry `Clients`. */
  class Clients {
    var list: map<CollabId, ClientInfo>

    /** `Clients::new`: nobody registered. */
    constructor ()
      ensures list == map[]
    {
      list := map[];
    }

    /** `broadcast`: the message goes to every registered client. */
    method Broadcast(msg: Message)
      modifies this
      ensures list == Deliver(old(list), old(list).Keys, msg)
    {
      ghost var start := list;
      var todo := list.Keys;
      while todo != {}
        invariant todo <= start.Keys && list.Keys == start.Keys
        invariant forall u :: u in start ==> list[u] == if u !in todo then start[u].(stream := start[u].stream + [msg]) else start[u]
        decreases todo
      {
        var u :| u in todo;
        list := list[u := list[u].(stream := list[u].stream + [msg])];
        todo := todo - {u};
      }
    }

    /** `send`: the message goes to every registered client but `client`. */
    method Send(client: CollabId, msg: Message)
      modifies this
      ensures list == Deliver(old(list), old(list).Keys - {client}, msg)
    {
      ghost var start := list;
      var todo := list.Keys;
      while todo != {}
        invariant todo <= start.Keys && list.Keys == start.Keys
        invariant forall u :: u in start ==> list[u] == if u !in todo && u != client then start[u].(stream := start[u].stream + [msg]) else start[u]
        decreases todo
      {
        var u :| u in todo;
        todo := todo - {u};
        if u == client {
          continue;
        }
        list := list[u := list[u].(stream := list[u].stream + [msg])];
      }
    }

    /** `filter_send`: the message goes to every client other than `ignore` that `wanted` accepts. */
    method FilterSend(wanted: ClientInfo -> bool, ignore: CollabId, msg: Message)
      modifies this
      ensures list == Deliver(old(list), Chosen(old(list), wanted, ignore), msg)
    {
      ghost var start := list;
      ghost var chosen := Chosen(list, wanted, ignore);
      var todo := list.Keys;
      while todo != {}
        invariant todo <= start.Keys && list.Keys == start.Keys
        invariant forall u :: u in start ==> list[u] == if u !in todo && u in chosen then start[u].(stream := start[u].stream + [msg]) else start[u]
        decreases todo
      {
        var u :| u in todo;
        todo := todo - {u};
        if u != ignore && wanted(list[u]) {
          list := list[u := list[u].(stream := list[u].stream + [msg])];
        }
      }
    }

    /** `add`: registers a new client under a fresh uid; the source's panic on an existing uid cannot happen. */
    method Add(stream: seq<Message>) returns (uid: CollabId)
      requires forall u :: u in list ==> u < 255
      modifies this
      ensures uid !in old(list) && uid == Server.NewUid(old(list).Keys)
      ensures list == old(list)[uid := NewInfo(stream)]
    {
      uid := GetNewUid();
      if uid in list {
        assert false;
      }
      list := list[uid := NewInfo(stream)];
    }

    /** `remove`: takes the client out of the registry and hands back its stream, if it was there. */
    method Remove(client: CollabId) returns (stream: Option<seq<Message>>)
      modifies this
      ensures stream == if client in old(list) then Some(old(list)[client].stream) else None
      ensures list == old(list) - {client}
    {
      stream := if client in list then Some(list[client].stream) else None;
      list := list - {client};
    }

    /** `get_new_uid`: one more than the largest uid, or 1. */
    method GetNewUid() returns (uid: CollabId)
      requires forall u :: u in list ==> u < 255
      ensures uid == Server.NewUid(list.Keys)
      ensures uid !in list && forall u :: u in list ==> u < uid
    {
      uid := Server.NextUid(list.Keys);
    }

    /**
     * `update_pos`: records the client's new position and sends the move to
     * every other client that wants position updates. The source unwraps the
     * entry, so the client must be registered.
     */
    method UpdatePos(id: CollabId, x: usize, y: usize)
      requires id in list
      modifies this
      ensures list == PosUpdated(old(list), id, x, y)
    {
      list := list[id := list[id].(pos := (x, y))];
      FilterSend((c: ClientInfo) => c.wantsPosUpdates, id, CollabPosSet(id, x, y));
    }
  }

  /** The per-connection handler: its own output stream, its flag, and the shared canvas and registry. */
  class ClientHandler {
    const uid: CollabId
    var out: seq<Message>
    var wantsPosUpdates: bool
    const canvas: CanvasObject.Canvas
    const clients: Clients

    /** A handler as `main` spawns it, for a client just registered. */
    constructor (uid: CollabId, canvas: CanvasObject.Canvas, clients: Clients)
      ensures this.uid == uid && this.canvas == canvas && this.clients == clients
      ensures out == [] && !wantsPosUpdates
    {
      this.uid := uid;
      this.canvas := canvas;
      this.clients := clients;
      out := [];
      wantsPosUpdates := false;
    }

    /** `on_char_update`: an on-canvas cell is set and the `CharSet` sent to the others; anything else changes nothing. */
    method OnCharUpdate(x: usize, y: usize, c: char)
      requires canvas.Valid()
      modifies canvas, clients
      ensures canvas.Valid()
      ensures if old(canvas.Value()).IsIn(x, y) then
          && canvas.Value() == old(canvas.Value()).Set(x, y, c)
          && clients.list == Deliver(old(clients.list), old(clients.list).Keys - {uid}, CharSet(x, y, c))
        else
          canvas.Value() == old(canvas.Value()) && clients.list == old(clients.list)
    {
      if !canvas.Value().IsIn(x, y) {
        return;
      }
      canvas.Set(x, y, c);
      clients.Send(uid, CharSet(x, y, c));
    }

    /**
     * `on_pos_update`: the registry records the move and forwards it; the
     * first time, the handler and its registry entry both switch position
     * updates on and the client is sent where every other client is.
     */
    method OnPosUpdate(x: usize, y: usize)
      requires uid in clients.list
      modifies this, clients
      ensures wantsPosUpdates
      ensures var moved := PosUpdated(old(clients.list), uid, x, y);
        clients.list == if old(wantsPosUpdates) then moved else moved[uid := moved[uid].(wantsPosUpdates := true)]
      ensures old(wantsPosUpdates) ==> out == old(out)
      ensures !old(wantsPosUpdates) ==>
        && |old(out)| <= |out| && out[..|old(out)|] == old(out)
        && multiset(out[|old(out)|..]) == multiset(Snapshot(old(clients.list), uid))
    {
      ghost var before := clients.list;
      clients.UpdatePos(uid, x, y);
      if !wantsPosUpdates {
        wantsPosUpdates := true;
        clients.list := clients.list[uid := clients.list[uid].(wantsPosUpdates := true)];
        PosUpdatedKeepsOthers(before, uid, x, y);
        SnapshotOfOthers(clients.list, before, uid);
        var written := SendSnapshot();
        assert out[|old(out)|..] == written;
      }
    }

    /** The loop of `on_pos_update` that writes every other client's position to this client. */
    method SendSnapshot() returns (written: seq<Message>)
      modifies this
      ensures out == old(out) + written && wantsPosUpdates == old(wantsPosUpdates)
      ensures multiset(written) == multiset(Snapshot(clients.list, uid))
    {
      var list := clients.list;
      written := [];
      var todo := list.Keys - {uid};
      while todo != {}
        invariant todo <= list.Keys - {uid} && out == old(out) && wantsPosUpdates == old(wantsPosUpdates)
        invariant multiset(written) == multiset(Snapshot(list - todo, uid))
        decreases todo
      {
        var id :| id in todo;
        var (px, py) := list[id].pos;
        SnapshotGrows(list, uid, todo, id);
        written := written + [CollabPosSet(id, px, py)];
        todo := todo - {id};
      }
      assert list - {} == list;
      out := out + written;
    }

    /** When `run` returns, with or without an error, the uid leaves the registry; a `run` that panics never gets here. */
    method Finish()
      modifies clients
      ensures clients.list == old(clients.list) - {uid}
    {
      var _ := clients.Remove(uid);
    }
  }

  /** Taking one more client out of `todo` adds exactly its own, new, position message to the snapshot. */
  lemma SnapshotGrows(list: map<CollabId, ClientInfo>, self: CollabId, todo: set<CollabId>, id: CollabId)
    requires id in todo && todo <= list.Keys - {self}
    ensures var m := CollabPosSet(id, list[id].pos.0, list[id].pos.1);
      && m !in Snapshot(list - todo, self)
      && Snapshot(list - (todo - {id}), self) == Snapshot(list - todo, self) + {m}
      && multiset(Snapshot(list - (todo - {id}), self)) == multiset(Snapshot(list - todo, self)) + multiset{m}
  {
    var m := CollabPosSet(id, list[id].pos.0, list[id].pos.1);
    var before := Snapshot(list - todo, self);
    var after := Snapshot(list - (todo - {id}), self);
    forall n | n in before
      ensures n.id != id
    {
      var u :| u in list - todo && u != self && n == CollabPosSet(u, (list - todo)[u].pos.0, (list - todo)[u].pos.1);
    }
    forall n | n in after
      ensures n in before + {m}
    {
      var u :| u in list - (todo - {id}) && u != self && n == CollabPosSet(u, (list - (todo - {id}))[u].pos.0, (list - (todo - {id}))[u].pos.1);
      if u != id {
        assert u in list - todo;
      }
    }
    forall n | n in before + {m}
      ensures n in after
    {
      if n != m {
        var u :| u in list - todo && u != self && n == CollabPosSet(u, (list - todo)[u].pos.0, (list - todo)[u].pos.1);
        assert u in list - (todo - {id});
      } else {
        assert id in list - (todo - {id});
      }
    }
    assert after == before + {m};
  }

  /** The snapshot only depends on who is registered and where the others are. */
  lemma SnapshotOfOthers(list: map<CollabId, ClientInfo>, list': map<CollabId, ClientInfo>, self: CollabId)
    requires list.Keys == list'.Keys
    requires forall u :: u in list && u != self ==> list[u].pos == list'[u].pos
    ensures Snapshot(list, self) == Snapshot(list', self)
  {
  }

  /** `update_pos` moves only its own client: everyone stays registered, with the same position and flag. */
  lemma PosUpdatedKeepsOthers(list: map<CollabId, ClientInfo>, id: CollabId, x: usize, y: usize)
    requires id in list
    ensures var r := PosUpdated(list, id, x, y);
      && r.Keys == list.Keys
      && r[id].pos == (x, y)
      && forall u :: u in list ==> r[u].wantsPosUpdates == list[u].wantsPosUpdates && (u != id ==> r[u].pos == list[u].pos)
  {
  }

  /** With the clients outside `todo` taken, the snapshot has one message per other client taken. */
  lemma {:induction false} SnapshotCount(list: map<CollabId, ClientInfo>, self: CollabId, todo: set<CollabId>)
    requires todo <= list.Keys - {self}
    ensures |Snapshot(list - todo, self)| == |list.Keys - {self} - todo|
    decreases list.Keys - {self} - todo
  {
    if list.Keys - {self} - todo == {} {
      assert todo == list.Keys - {self};
      assert Snapshot(list - todo, self) == {};
    } else {
      var id :| id in list.Keys - {self} - todo;
      SnapshotCount(list, self, todo + {id});
      SnapshotGrows(list, self, todo + {id}, id);
      assert todo + {id} - {id} == todo;
      assert list.Keys - {self} - todo == (list.Keys - {self} - (todo + {id})) + {id};
    }
  }

  /** The snapshot `on_pos_update` sends holds exactly one position per other registered client. */
  lemma SnapshotSize(list: map<CollabId, ClientInfo>, self: CollabId)
    ensures |Snapshot(list, self)| == |list.Keys - {self}|
  {
    SnapshotCount(list, self, {});
    assert list - {} == list;
  }
}
