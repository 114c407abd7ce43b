/**
 * The connection registry (webrtc-server/pkg/connreg/connection_registry.go)
 * over the map whose actor runs one request at a time
 * (webrtc-server/pkg/safemap/methods.go): each method is one request.
 */
module ConnRegistry {
  import opened Wrappers

  type Socket = nat
  type QuicConn = nat
  type Attributes = map<string, string>

  const PREFERRED_COLOR := "preferred_color"

  datatype RenameResult = Renamed(origin: string) | NotFound | NilName

  /** An entry; a missing map of attributes is the same as an empty one. */
  class ConnRegistryData {
    var nodeName: Option<string>
    var connectedAt: nat
    var registeredAt: Option<nat>
    var lastHeartbeat: Option<nat>
    var attributes: Attributes
    var quicConn: Option<QuicConn>
    var wsConn: Option<Socket>
    var claims: map<string, string>
    var authentication: string

    constructor (connectedAt: nat, quicConn: Option<QuicConn>)
      ensures this.connectedAt == connectedAt && this.quicConn == quicConn
      ensures nodeName == None && registeredAt == None && lastHeartbeat == None && wsConn == None
      ensures attributes == map[] && claims == map[] && authentication == ""
    {
      this.connectedAt, this.quicConn := connectedAt, quicConn;
      nodeName, registeredAt, lastHeartbeat, wsConn := None, None, None, None;
      attributes, claims, authentication := map[], map[], "";
    }

    /** Through JSON and back: the connections are carried over by hand, the claims are not. */
    method Clone() returns (c: ConnRegistryData)
      ensures fresh(c) && c.SameAs(this) && c.claims == map[]
      ensures c.nodeName == nodeName && c.connectedAt == connectedAt && c.registeredAt == registeredAt
      ensures c.lastHeartbeat == lastHeartbeat && c.attributes == attributes && c.authentication == authentication
      ensures c.quicConn == quicConn && c.wsConn == wsConn
    {
      c := new ConnRegistryData(connectedAt, quicConn);
      c.nodeName, c.registeredAt, c.lastHeartbeat := nodeName, registeredAt, lastHeartbeat;
      c.attributes, c.authentication := attributes, authentication;
      c.wsConn := wsConn;
    }

    /** Equal in everything but the claims. */
    ghost predicate SameAs(other: ConnRegistryData)
      reads this, other
    {
      && nodeName == other.nodeName && connectedAt == other.connectedAt
      && registeredAt == other.registeredAt && lastHeartbeat == other.lastHeartbeat
      && attributes == other.attributes && authentication == other.authentication
      && quicConn == other.quicConn && wsConn == other.wsConn
    }
  }

  class ConnRegistry {
    var store: map<string, ConnRegistryData>
    var counter: nat

    /** No two keys share an entry. */
    ghost predicate Valid()
      reads this
    {
      forall a, b :: a in store && b in store && a != b ==> store[a] != store[b]
    }

    constructor ()
      ensures Valid() && store == map[] && counter == 0
    {
      store, counter := map[], 0;
    }

    /** `now` stands for time.Now().Unix(), here and in Register. */
    method OpenConnection(key: string, quicConn: Option<QuicConn>, now: nat) returns (numId: nat)
      requires Valid()
      modifies this
      ensures Valid() && numId == old(counter) && counter == old(counter) + 1
      ensures store.Keys == old(store.Keys) + {key}
      ensures forall k :: k in store && k != key ==> store[k] == old(store)[k]
      ensures fresh(store[key]) && store[key].connectedAt == now && store[key].quicConn == quicConn
      ensures store[key].nodeName == None && store[key].registeredAt == None && store[key].lastHeartbeat == None
      ensures store[key].wsConn == None && store[key].attributes == map[] && store[key].authentication == ""
    {
      numId := counter;
      counter := counter + 1;
      var data := new ConnRegistryData(now, quicConn);
      store := store[key := data];
    }

    method CloseConnection(key: string)
      requires Valid()
      modifies this`store
      ensures Valid() && store == old(store) - {key}
    {
      store := store - {key};
    }

    /** The entry is changed in place, if it is there; what it does not set stays. */
    method Register(key: string, name: string, auth: string, wsConn: Socket, now: nat) returns (found: bool)
      requires Valid()
      modifies if key in store then {store[key]} else {}
      ensures found <==> key in store
      ensures found ==>
                && store[key].nodeName == Some(name) && store[key].registeredAt == Some(now)
                && store[key].wsConn == Some(wsConn) && store[key].authentication == auth
      ensures found ==>
                && store[key].connectedAt == old(store[key].connectedAt)
                && store[key].lastHeartbeat == old(store[key].lastHeartbeat)
                && store[key].attributes == old(store[key].attributes)
                && store[key].quicConn == old(store[key].quicConn) && store[key].claims == old(store[key].claims)
    {
      found := key in store;
      if found {
        var entry := store[key];
        entry.nodeName, entry.registeredAt := Some(name), Some(now);
        entry.wsConn, entry.authentication := Some(wsConn), auth;
      }
    }

    /**
     * The old name is read in the goroutine of the map, where nobody recovers
     * from a name that is not there yet.
     */
    method UpdatePreference(key: string, name: string, color: Option<string>) returns (r: RenameResult)
      requires Valid()
      modifies if key in store then {store[key]} else {}
      ensures r.NotFound? <==> key !in store
      ensures key in store ==>
                && (r.NilName? <==> old(store[key].nodeName).None?)
                && (r.NilName? ==> store[key].nodeName == None && store[key].attributes == old(store[key].attributes))
                && (r.Renamed? ==>
                      && Some(r.origin) == old(store[key].nodeName) && store[key].nodeName == Some(name)
                      && store[key].attributes
                         == if color.Some? then old(store[key].attributes)["preferred_color" := color.value]
                            else old(store[key].attributes))
                && store[key].wsConn == old(store[key].wsConn) && store[key].quicConn == old(store[key].quicConn)
                && store[key].connectedAt == old(store[key].connectedAt)
                && store[key].registeredAt == old(store[key].registeredAt)
                && store[key].lastHeartbeat == old(store[key].lastHeartbeat)
                && store[key].claims == old(store[key].claims)
                && store[key].authentication == old(store[key].authentication)
    {
      if key !in store {
        return NotFound;
      }
      var entry := store[key];
      if entry.nodeName.None? {
        return NilName;
      }
      r := Renamed(entry.nodeName.value);
      entry.nodeName := Some(name);
      if color.Some? {
        entry.attributes := entry.attributes[PREFERRED_COLOR := color.value];
      }
    }

    /** A walk in any order, stopped at the key: the result is the same for every order. */
    method GetByNodeId(nodeId: string) returns (data: ConnRegistryData?)
      requires Valid()
      ensures data == null <==> nodeId !in store
      ensures data != null ==> fresh(data) && data.SameAs(store[nodeId])
      ensures data != null ==> data.wsConn == store[nodeId].wsConn && data.nodeName == store[nodeId].nodeName
    {
      data := null;
      var rest := store.Keys;
      while rest != {}
        invariant rest <= store.Keys && data == null
        invariant nodeId in store ==> nodeId in rest
      {
        var key :| key in rest;
        rest := rest - {key};
        if key == nodeId {
          data := store[key].Clone();
          break;
        }
      }
    }
  }
}

/**
 * The signalling relay (webrtc-server/pkg/handler/handle_ws.go): one read loop
 * per connection, each relaying the offers and candidates it reads, under
 * every interleaving of the connections.  A nil dereference in a loop, or in
 * the goroutine of the registry, ends the process: nothing recovers it.
 */
module Relay {
  import opened Wrappers
  import Registry = ConnRegistry

  type Key = string
  type Socket = Registry.Socket

  /** A text message from a client; `id` stands for the rest of its contents. */
  datatype Payload = Payload(id: nat, register: bool, rename: bool, sdpTo: Option<Key>, iceTo: Option<Key>)

  datatype Kind = Sdp | Ice

  /** One call of sendMsgTo. */
  datatype Item = Item(kind: Kind, to: Key, payload: Payload)

  /** The offer of a payload is relayed before its candidate. */
  function ItemsOf(m: Payload): seq<Item> {
    (if m.sdpTo.Some? then [Item(Sdp, m.sdpTo.value, m)] else [])
    + (if m.iceTo.Some? then [Item(Ice, m.iceTo.value, m)] else [])
  }

  function Items(ms: seq<Payload>): seq<Item> {
    if ms == [] then [] else Items(ms[..|ms| - 1]) + ItemsOf(ms[|ms| - 1])
  }

  /** Where a read loop is, with the items of the current message still to relay. */
  datatype Pc =
    | Idle                                          // ReadMessage
    | Registering(rename: bool, todo: seq<Item>)    // register, and then perhaps rename
    | Renaming(todo: seq<Item>)
    | Handling(todo: seq<Item>)                     // relaying; the timer is reset when nothing is left
    | Writing(item: Item, dest: Socket, rest: seq<Item>)
    | Stopped                                       // ReadMessage failed

  function Todo(pc: Pc): seq<Item> {
    match pc
    case Registering(_, todo) => todo
    case Renaming(todo) => todo
    case Handling(todo) => todo
    case Writing(item, _, rest) => [item] + rest
    case _ => []
  }

  /**
   * A connection: its socket, the messages read and not yet read, its read
   * loop, and whether its timer is still there.
   */
  datatype Conn = Conn(socket: Socket, read: seq<Payload>, inbox: seq<Payload>, pc: Pc, timer: bool)

  function Sent(c: Conn): seq<Payload> {
    c.read + c.inbox
  }

  /** An item written to a socket, and its position among the items of its sender. */
  datatype Write = Write(socket: Socket, src: Key, pos: int, item: Item)

  /** What was nil when it was dereferenced. */
  datatype Cause =
    | OfferMissing    // payload.SDPOffer, in the error message of sendMsgTo
    | NameMissing     // entry.NodeName, in UpdatePreference
    | TimerMissing    // gcTimer, in the read loop

  /**
   * `registry` gives the socket of each open connection once it has registered,
   * which is when it has a name too; `conns` keeps closed ones.
   */
  datatype State = State(
    registry: map<Key, Option<Socket>>,
    conns: map<Key, Conn>,
    log: seq<Write>,
    panic: Option<Cause>)

  const INIT := State(map[], map[], [], None)

  datatype Step =
    | Connect(k: Key, socket: Socket)
    | ClientSend(k: Key, m: Payload)
    | Read(k: Key)
    | ReadFails(k: Key)
    | Register(k: Key)
    | Rename(k: Key)
    | Abort(k: Key)        // an error elsewhere in the handler ends it
    | Lookup(k: Key)
    | WriteOk(k: Key)
    | WriteFails(k: Key)
    | Finish(k: Key)       // the message is handled: gcTimer.Reset
    | Expire(k: Key)       // the timeout, or the end of the loop: gcTimer is set to nil
    | Close(k: Key)        // and the connection leaves the registry

  predicate Enabled(s: State, step: Step) {
    && s.panic.None?
    && match step
       case Connect(k, socket) => k !in s.conns && forall c :: c in s.conns ==> s.conns[c].socket != socket
       case ClientSend(k, _) => k in s.conns
       case Read(k) => k in s.conns && s.conns[k].pc.Idle? && s.conns[k].inbox != []
       case ReadFails(k) => k in s.conns && s.conns[k].pc.Idle?
       case Register(k) => k in s.conns && s.conns[k].pc.Registering?
       case Rename(k) => k in s.conns && s.conns[k].pc.Renaming?
       case Abort(k) => k in s.conns && (s.conns[k].pc.Renaming? || s.conns[k].pc.Handling?)
       case Lookup(k) => k in s.conns && s.conns[k].pc.Handling? && s.conns[k].pc.todo != []
       case WriteOk(k) => k in s.conns && s.conns[k].pc.Writing?
       case WriteFails(k) => k in s.conns && s.conns[k].pc.Writing?
       case Finish(k) => k in s.conns && s.conns[k].pc == Handling([])
       case Expire(k) => k in s.conns && s.conns[k].timer
       case Close(k) => k in s.conns && !s.conns[k].timer
  }

  function At(s: State, k: Key, pc: Pc): State
    requires k in s.conns
  {
    s.(conns := s.conns[k := s.conns[k].(pc := pc)])
  }

  /** Where the handler begins with a message. */
  function Begin(m: Payload): Pc {
    if m.register then Registering(m.rename, ItemsOf(m))
    else if m.rename then Renaming(ItemsOf(m))
    else Handling(ItemsOf(m))
  }

  function Do(s: State, step: Step): State
    requires Enabled(s, step)
  {
    match step
    case Connect(k, socket) =>
      s.(registry := s.registry[k := None], conns := s.conns[k := Conn(socket, [], [], Idle, true)])
    case ClientSend(k, m) => s.(conns := s.conns[k := s.conns[k].(inbox := s.conns[k].inbox + [m])])
    case Read(k) =>
      var c := s.conns[k];
      var m := c.inbox[0];
      s.(conns := s.conns[k := c.(read := c.read + [m], inbox := c.inbox[1..], pc := Begin(m))])
    case ReadFails(k) => At(s, k, Stopped)
    case Register(k) =>
      // An entry that is gone is an error which the handler ignores.
      var Registering(rename, todo) := s.conns[k].pc;
      var t := At(s, k, if rename then Renaming(todo) else Handling(todo));
      if k in s.registry then t.(registry := s.registry[k := Some(s.conns[k].socket)]) else t
    case Rename(k) =>
      if k !in s.registry then At(s, k, Idle)
      else if s.registry[k].None? then s.(panic := Some(NameMissing))
      else At(s, k, Handling(s.conns[k].pc.todo))
    case Abort(k) => At(s, k, Idle)
    case Lookup(k) =>
      var todo := s.conns[k].pc.todo;
      var to := todo[0].to;
      if to in s.registry && s.registry[to].Some? then At(s, k, Writing(todo[0], s.registry[to].value, todo[1..]))
      else At(s, k, Handling(todo[1..]))
    case WriteOk(k) =>
      var Conn(_, read, _, Writing(item, dest, rest), _) := s.conns[k];
      var pos := |Items(read)| - |rest| - 1;
      At(s.(log := s.log + [Write(dest, k, pos, item)]), k, Handling(rest))
    case WriteFails(k) =>
      // The error message names the offer's addressee, and a candidate may come without an offer.
      if s.conns[k].pc.item.kind.Ice? && s.conns[k].pc.item.payload.sdpTo.None? then s.(panic := Some(OfferMissing))
      else At(s, k, Idle)
    case Finish(k) => if s.conns[k].timer then At(s, k, Idle) else s.(panic := Some(TimerMissing))
    case Expire(k) => s.(conns := s.conns[k := s.conns[k].(timer := false)])
    case Close(k) => s.(registry := s.registry - {k})
  }

  function Next(s: State, step: Step): State {
    if Enabled(s, step) then Do(s, step) else s
  }

  function Exec(s: State, steps: seq<Step>): State
    decreases |steps|
  {
    if steps == [] then s else Exec(Next(s, steps[0]), steps[1..])
  }

  // ---------------------------------------------------------------- invariant

  /** The number of items of a connection that have been dealt with. */
  function Passed(c: Conn): int {
    |Items(c.read)| - |Todo(c.pc)|
  }

  ghost predicate ConnInv(c: Conn) {
    0 <= Passed(c) && Items(c.read)[Passed(c)..] == Todo(c.pc)
  }

  ghost predicate SocketInv(s: State) {
    && (forall a, b :: a in s.conns && b in s.conns && a != b ==> s.conns[a].socket != s.conns[b].socket)
    && (forall k :: k in s.registry ==> k in s.conns)
    && (forall k :: k in s.registry && s.registry[k].Some? ==> s.registry[k].value == s.conns[k].socket)
    && (forall k :: k in s.conns && s.conns[k].pc.Writing? ==>
          && s.conns[k].pc.item.to in s.conns
          && s.conns[k].pc.dest == s.conns[s.conns[k].pc.item.to].socket)
  }

  ghost predicate WriteInv(s: State, w: Write) {
    && w.src in s.conns && w.item.to in s.conns
    && w.socket == s.conns[w.item.to].socket
    && 0 <= w.pos < Passed(s.conns[w.src]) <= |Items(s.conns[w.src].read)|
    && Items(s.conns[w.src].read)[w.pos] == w.item
  }

  ghost predicate LogInv(s: State) {
    && (forall w :: w in s.log ==> WriteInv(s, w))
    && (forall i, j :: 0 <= i < j < |s.log| && s.log[i].src == s.log[j].src ==> s.log[i].pos < s.log[j].pos)
  }

  ghost predicate Inv(s: State) {
    SocketInv(s) && (forall k :: k in s.conns ==> ConnInv(s.conns[k])) && LogInv(s)
  }

  /** Connections keep their sockets, and only the one that moves changes its place. */
  lemma Frame(s: State, step: Step)
    requires Enabled(s, step)
    ensures var t := Do(s, step);
      && (forall k :: k in s.conns ==> k in t.conns && t.conns[k].socket == s.conns[k].socket)
      && (forall k :: k in t.conns ==> k in s.conns || (step.Connect? && k == step.k))
      && (forall k :: k in s.conns && k != step.k ==> t.conns[k] == s.conns[k])
  {
  }

  lemma ConnectSockets(s: State, step: Step)
    requires SocketInv(s) && Enabled(s, step) && step.Connect?
    ensures SocketInv(Do(s, step))
  {
  }

  lemma RegistrySockets(s: State, step: Step)
    requires SocketInv(s) && Enabled(s, step) && !step.Connect?
    ensures var t := Do(s, step);
      && (forall k :: k in t.registry ==> k in t.conns)
      && (forall k :: k in t.registry && t.registry[k].Some? ==> t.registry[k].value == t.conns[k].socket)
  {
    Frame(s, step);
  }

  lemma SocketStep(s: State, step: Step)
    requires SocketInv(s) && Enabled(s, step)
    ensures SocketInv(Do(s, step))
  {
    if step.Connect? {
      ConnectSockets(s, step);
    } else {
      var t := Do(s, step);
      Frame(s, step);
      RegistrySockets(s, step);
      forall k | k in t.conns && t.conns[k].pc.Writing?
        ensures t.conns[k].pc.item.to in t.conns && t.conns[k].pc.dest == t.conns[t.conns[k].pc.item.to].socket
      {
        if k == step.k && step.Lookup? {
          assert t.conns[k].pc.item.to in s.registry;
        } else {
          assert t.conns[k].pc == s.conns[k].pc;
        }
      }
    }
  }

  /** What a step does to one connection: it may read one message more, and never goes back. */
  ghost predicate Advances(c: Conn, d: Conn) {
    && d.socket == c.socket
    && Items(c.read) <= Items(d.read)
    && Passed(c) <= Passed(d)
    && ConnInv(d)
  }

  /** Nothing dealt with, one item, or all of them. */
  predicate Shortens(todo: seq<Item>, later: seq<Item>) {
    later == todo || later == [] || (todo != [] && later == todo[1..])
  }

  lemma ItemsDealtWith(c: Conn, d: Conn)
    requires ConnInv(c) && d.socket == c.socket && d.read == c.read && Shortens(Todo(c.pc), Todo(d.pc))
    ensures Advances(c, d)
  {
    var items, n := Items(c.read), Passed(c);
    if Todo(d.pc) == Todo(c.pc) {
    } else if Todo(d.pc) == [] {
      assert items[|items|..] == [];
    } else {
      assert items[n..][1..] == items[n + 1..];
    }
  }

  lemma MessageRead(c: Conn, d: Conn, m: Payload)
    requires ConnInv(c) && Todo(c.pc) == [] && d.socket == c.socket
    requires d.read == c.read + [m] && Todo(d.pc) == ItemsOf(m)
    ensures Advances(c, d)
  {
    assert d.read[..|d.read| - 1] == c.read;
  }

  lemma HandMoves(s: State, step: Step)
    requires Enabled(s, step) && (step.Lookup? || step.WriteOk?)
    ensures var c, d := s.conns[step.k], Do(s, step).conns[step.k];
      d.socket == c.socket && d.read == c.read && Shortens(Todo(c.pc), Todo(d.pc))
  {
    var c, d := s.conns[step.k], Do(s, step).conns[step.k];
    if step.WriteOk? {
      assert Todo(c.pc)[1..] == c.pc.rest;
    } else if d.pc.Writing? {
      assert [c.pc.todo[0]] + c.pc.todo[1..] == c.pc.todo;
    }
  }

  /** Any other step keeps what is still to relay, or gives it up. */
  lemma OthersKeep(s: State, step: Step)
    requires Enabled(s, step) && !step.Connect? && !step.Read? && !step.Lookup? && !step.WriteOk?
    ensures var c, d := s.conns[step.k], Do(s, step).conns[step.k];
      d.socket == c.socket && d.read == c.read && (Todo(d.pc) == Todo(c.pc) || Todo(d.pc) == [])
  {
  }

  lemma ConnStep(s: State, step: Step, k: Key)
    requires Enabled(s, step) && k in s.conns && ConnInv(s.conns[k])
    ensures k in Do(s, step).conns && Advances(s.conns[k], Do(s, step).conns[k])
  {
    Frame(s, step);
    var c, d := s.conns[k], Do(s, step).conns[k];
    if step.k != k {
      assert d == c;
    } else if step.Read? {
      MessageRead(c, d, c.inbox[0]);
    } else {
      if step.Lookup? || step.WriteOk? {
        HandMoves(s, step);
      } else {
        OthersKeep(s, step);
      }
      ItemsDealtWith(c, d);
    }
  }

  lemma WriteKept(s: State, step: Step, w: Write)
    requires WriteInv(s, w) && ConnInv(s.conns[w.src]) && ConnInv(s.conns[w.item.to]) && Enabled(s, step)
    ensures WriteInv(Do(s, step), w)
  {
    ConnStep(s, step, w.src);
    ConnStep(s, step, w.item.to);
  }

  lemma ItemInHand(c: Conn)
    requires ConnInv(c) && c.pc.Writing?
    ensures 0 <= Passed(c) < |Items(c.read)| && Items(c.read)[Passed(c)] == c.pc.item
    ensures Passed(c.(pc := Handling(c.pc.rest))) == Passed(c) + 1
  {
    assert Items(c.read)[Passed(c)..][0] == c.pc.item;
  }

  /** The item written is the one that follows those dealt with. */
  lemma WriteNew(s: State, k: Key)
    requires SocketInv(s) && Enabled(s, WriteOk(k)) && ConnInv(s.conns[k])
    ensures var t := Do(s, WriteOk(k));
      && t.log == s.log + [Write(s.conns[k].pc.dest, k, Passed(s.conns[k]), s.conns[k].pc.item)]
      && WriteInv(t, t.log[|s.log|])
  {
    ItemInHand(s.conns[k]);
    Frame(s, WriteOk(k));
  }

  /** The new entry of the log comes after those of the same connection. */
  lemma LogGrows(s: State, k: Key)
    requires LogInv(s) && SocketInv(s) && Enabled(s, WriteOk(k)) && ConnInv(s.conns[k])
    requires forall w :: w in s.log ==> WriteInv(Do(s, WriteOk(k)), w)
    ensures LogInv(Do(s, WriteOk(k)))
  {
    WriteNew(s, k);
    forall i | 0 <= i < |s.log| && s.log[i].src == k
      ensures s.log[i].pos < Passed(s.conns[k])
    {
      assert s.log[i] in s.log;
      assert WriteInv(s, s.log[i]);
    }
  }

  lemma LogStep(s: State, step: Step)
    requires Inv(s) && Enabled(s, step)
    ensures LogInv(Do(s, step))
  {
    var t := Do(s, step);
    forall w | w in s.log
      ensures WriteInv(t, w)
    {
      assert WriteInv(s, w);
      WriteKept(s, step, w);
    }
    if step.WriteOk? {
      LogGrows(s, step.k);
    } else {
      assert t.log == s.log;
    }
  }

  lemma ConnsStep(s: State, step: Step)
    requires Enabled(s, step) && forall k :: k in s.conns ==> ConnInv(s.conns[k])
    ensures forall k :: k in Do(s, step).conns ==> ConnInv(Do(s, step).conns[k])
  {
    var t := Do(s, step);
    Frame(s, step);
    forall k | k in t.conns
      ensures ConnInv(t.conns[k])
    {
      if k in s.conns {
        ConnStep(s, step, k);
      }
    }
  }

  lemma {:induction false} ExecInv(s: State, steps: seq<Step>)
    requires Inv(s)
    ensures Inv(Exec(s, steps))
    decreases |steps|
  {
    if steps == [] {
    } else {
      if Enabled(s, steps[0]) {
        SocketStep(s, steps[0]);
        ConnsStep(s, steps[0]);
        LogStep(s, steps[0]);
      }
      ExecInv(Next(s, steps[0]), steps[1..]);
    }
  }

  // ---------------------------------------------------------------- results about every run

  lemma {:induction false} ItemsPrefix(ms: seq<Payload>, more: seq<Payload>)
    ensures Items(ms) <= Items(ms + more)
    decreases |more|
  {
    if more == [] {
      assert ms + more == ms;
    } else {
      assert (ms + more)[..|ms + more| - 1] == ms + more[..|more| - 1];
      ItemsPrefix(ms, more[..|more| - 1]);
    }
  }

  /** What is written to the socket of node b was addressed to b, and was sent by the connection it came from. */
  lemma WrittenToAddressee(steps: seq<Step>, b: Key, w: Write)
    ensures
      var s := Exec(INIT, steps);
      b in s.conns && w in s.log && w.socket == s.conns[b].socket ==>
        && w.item.to == b && w.src in s.conns
        && 0 <= w.pos < |Items(Sent(s.conns[w.src]))| && Items(Sent(s.conns[w.src]))[w.pos] == w.item
  {
    ExecInv(INIT, steps);
    var s := Exec(INIT, steps);
    if w in s.log {
      assert WriteInv(s, w);
      ItemsPrefix(s.conns[w.src].read, s.conns[w.src].inbox);
    }
  }

  /**
   * Of two writes that come from one node the earlier one was sent earlier: on
   * each socket the items of a node are a subsequence, without repetition, of
   * those it sent, so no offer arrives after a candidate sent later.
   */
  lemma RelayKeepsOrder(steps: seq<Step>, i: nat, j: nat)
    ensures
      var s := Exec(INIT, steps);
      i < j < |s.log| && s.log[i].src == s.log[j].src ==> s.log[i].pos < s.log[j].pos
  {
    ExecInv(INIT, steps);
  }

  /** An offer that follows a candidate in the items belongs to a later message; n is between the two messages. */
  lemma {:induction false} OfferOfLaterMessage(ms: seq<Payload>, p: nat, q: nat) returns (n: nat)
    requires p < q < |Items(ms)| && Items(ms)[p].kind.Ice? && Items(ms)[q].kind.Sdp?
    ensures n <= |ms| && p < |Items(ms[..n])| <= q
  {
    var front := ms[..|ms| - 1];
    if q < |Items(front)| {
      n := OfferOfLaterMessage(front, p, q);
      assert front[..n] == ms[..n];
    } else {
      n := |ms| - 1;
    }
  }

  /**
   * An offer written after a candidate from the same node was sent in a later
   * message: the first n messages sent hold the candidate and not the offer.
   */
  lemma NoOfferAfterLaterCandidate(steps: seq<Step>, i: nat, j: nat)
    requires
      var s := Exec(INIT, steps);
      i < j < |s.log| && s.log[i].src == s.log[j].src && s.log[i].item.kind.Ice? && s.log[j].item.kind.Sdp?
    ensures
      var s := Exec(INIT, steps);
      && s.log[i].src in s.conns
      && exists n :: 0 <= n <= |Sent(s.conns[s.log[i].src])|
           && s.log[i].pos < |Items(Sent(s.conns[s.log[i].src])[..n])| <= s.log[j].pos
  {
    ExecInv(INIT, steps);
    var s := Exec(INIT, steps);
    assert WriteInv(s, s.log[i]) && WriteInv(s, s.log[j]);
    var c := s.conns[s.log[i].src];
    var n := OfferOfLaterMessage(c.read, s.log[i].pos, s.log[j].pos);
    assert Sent(c)[..n] == c.read[..n];
  }

  // ---------------------------------------------------------------- what is delivered

  predicate Registered(registry: map<Key, Option<Socket>>, to: Key) {
    to in registry && registry[to].Some?
  }

  predicate AllRegistered(registry: map<Key, Option<Socket>>, todo: seq<Item>) {
    forall item :: item in todo ==> Registered(registry, item.to)
  }

  /** One connection relaying n items with no other step and no failure in between. */
  function RelaySteps(k: Key, n: nat): seq<Step> {
    if n == 0 then [] else [Lookup(k), WriteOk(k)] + RelaySteps(k, n - 1)
  }

  /** The items written one after the other, each to the socket its addressee has registered. */
  function WritesOf(registry: map<Key, Option<Socket>>, src: Key, pos: int, todo: seq<Item>): seq<Write>
    requires AllRegistered(registry, todo)
    decreases |todo|
  {
    if todo == [] then []
    else [Write(registry[todo[0].to].value, src, pos, todo[0])] + WritesOf(registry, src, pos + 1, todo[1..])
  }

  lemma RelayOne(s: State, k: Key)
    requires s.panic.None? && k in s.conns && s.conns[k].pc.Handling? && s.conns[k].pc.todo != []
    requires Registered(s.registry, s.conns[k].pc.todo[0].to)
    ensures
      var todo := s.conns[k].pc.todo;
      var t := Next(Next(s, Lookup(k)), WriteOk(k));
      && t.panic.None? && t.registry == s.registry && k in t.conns
      && t.conns[k] == s.conns[k].(pc := Handling(todo[1..]))
      && t.log == s.log + [Write(s.registry[todo[0].to].value, k, Passed(s.conns[k]), todo[0])]
  {
  }

  /** What has been written and what is still to be written stay the same together. */
  lemma RelayFirst(s: State, k: Key)
    requires s.panic.None? && k in s.conns && s.conns[k].pc.Handling? && s.conns[k].pc.todo != []
    requires AllRegistered(s.registry, s.conns[k].pc.todo)
    ensures
      var todo, pos := s.conns[k].pc.todo, Passed(s.conns[k]);
      var t := Next(Next(s, Lookup(k)), WriteOk(k));
      && AllRegistered(s.registry, todo[1..]) && Passed(s.conns[k].(pc := Handling(todo[1..]))) == pos + 1
      && t.log + WritesOf(s.registry, k, pos + 1, todo[1..]) == s.log + WritesOf(s.registry, k, pos, todo)
  {
    var todo := s.conns[k].pc.todo;
    assert todo[0] in todo && forall item :: item in todo[1..] ==> item in todo;
    RelayOne(s, k);
  }

  lemma {:induction false} RelayAll(s: State, k: Key)
    requires s.panic.None? && k in s.conns && s.conns[k].pc.Handling?
    requires AllRegistered(s.registry, s.conns[k].pc.todo)
    ensures
      var todo := s.conns[k].pc.todo;
      var t := Exec(s, RelaySteps(k, |todo|));
      && t.log == s.log + WritesOf(s.registry, k, Passed(s.conns[k]), todo)
      && t.panic.None? && k in t.conns && t.conns[k] == s.conns[k].(pc := Handling([]))
    decreases |s.conns[k].pc.todo|
  {
    var todo := s.conns[k].pc.todo;
    if todo == [] {
    } else {
      assert todo[0] in todo;
      RelayOne(s, k);
      RelayFirst(s, k);
      RelayAll(Next(Next(s, Lookup(k)), WriteOk(k)), k);
      ExecTwo(s, Lookup(k), WriteOk(k), RelaySteps(k, |todo| - 1));
    }
  }

  lemma ExecTwo(s: State, a: Step, b: Step, rest: seq<Step>)
    ensures Exec(s, [a, b] + rest) == Exec(Next(Next(s, a), b), rest)
  {
    assert ([a, b] + rest)[1..] == [b] + rest;
    assert ([b] + rest)[1..] == rest;
  }

  /** The state in which a loop begins to relay the message it has just read. */
  function AfterRead(s: State, k: Key): State {
    Next(Next(Next(s, Read(k)), Register(k)), Rename(k))
  }

  /** A rename that comes before its sender has registered. */
  predicate TooEarly(s: State, k: Key, m: Payload) {
    m.rename && !m.register && k in s.registry && s.registry[k].None?
  }

  lemma ReadTakes(s: State, k: Key)
    requires Enabled(s, Read(k))
    ensures
      var m, r := s.conns[k].inbox[0], Next(s, Read(k));
      && r == s.(conns := r.conns) && k in r.conns
      && r.conns[k].pc == Begin(m) && r.conns[k].socket == s.conns[k].socket && r.conns[k].timer == s.conns[k].timer
      && Items(r.conns[k].read) == Items(s.conns[k].read) + ItemsOf(m)
  {
    assert (s.conns[k].read + [s.conns[k].inbox[0]])[..|s.conns[k].read|] == s.conns[k].read;
  }

  lemma BeginsToRelay(s: State, k: Key, m: Payload)
    requires s.panic.None? && k in s.conns && k in s.registry && s.conns[k].pc == Begin(m)
    ensures
      var r := Next(Next(s, Register(k)), Rename(k));
      if TooEarly(s, k, m) then r.panic == Some(NameMissing)
      else
        && r.panic.None? && r.log == s.log && k in r.conns && r.conns[k] == s.conns[k].(pc := Handling(ItemsOf(m)))
        && r.registry == if m.register then s.registry[k := Some(s.conns[k].socket)] else s.registry
  {
  }

  lemma ReadStarts(s: State, k: Key)
    requires Enabled(s, Read(k)) && k in s.registry
    ensures
      var m, r := s.conns[k].inbox[0], AfterRead(s, k);
      if TooEarly(s, k, m) then r.panic == Some(NameMissing)
      else
        && r.panic.None? && r.log == s.log && k in r.conns
        && r.conns[k].pc == Handling(ItemsOf(m)) && r.conns[k].timer == s.conns[k].timer
        && Passed(r.conns[k]) == |Items(s.conns[k].read)|
        && r.registry == if m.register then s.registry[k := Some(s.conns[k].socket)] else s.registry
  {
    ReadTakes(s, k);
    BeginsToRelay(Next(s, Read(k)), k, s.conns[k].inbox[0]);
  }

  /**
   * In every state, a loop that is left alone registers itself if the message
   * it reads says so, writes the offer and then the candidate of that message
   * to the sockets their addressees have registered, and is ready for the next
   * one, unless the message renames too early or the timer is gone.
   */
  lemma UndisturbedMessageIsRelayed(s: State, k: Key)
    requires Enabled(s, Read(k)) && k in s.registry
    ensures
      var m, r := s.conns[k].inbox[0], AfterRead(s, k);
      if TooEarly(s, k, m) then r.panic == Some(NameMissing)
      else
        && (m.register ==> r.registry[k] == Some(s.conns[k].socket))
        && (AllRegistered(r.registry, ItemsOf(m)) ==>
              var t := Exec(r, RelaySteps(k, |ItemsOf(m)|));
              && t.log == s.log + WritesOf(r.registry, k, |Items(s.conns[k].read)|, ItemsOf(m))
              && k in Next(t, Finish(k)).conns
              && if s.conns[k].timer then Next(t, Finish(k)).conns[k].pc.Idle?
                 else Next(t, Finish(k)).panic == Some(TimerMissing))
  {
    ReadStarts(s, k);
    var m, r := s.conns[k].inbox[0], AfterRead(s, k);
    if !TooEarly(s, k, m) && AllRegistered(r.registry, ItemsOf(m)) {
      RelayAll(r, k);
    }
  }

  // ---------------------------------------------------------------- what ends the process

  /** A candidate that comes without an offer. */
  predicate Orphan(m: Payload) {
    m.iceTo.Some? && m.sdpTo.None?
  }

  ghost predicate CanOrphan(allowed: iset<Payload>) {
    exists m :: m in allowed && Orphan(m)
  }

  ghost predicate CanRegister(allowed: iset<Payload>) {
    exists m :: m in allowed && m.register
  }

  /** A message renames and does not register. */
  ghost predicate CanRename(allowed: iset<Payload>) {
    exists m :: m in allowed && m.rename && !m.register
  }

  /** A message can be handled to the end by a connection that has sent no other. */
  ghost predicate CanFinish(allowed: iset<Payload>) {
    exists m :: m in allowed && (m.register || !m.rename)
  }

  /** What a cause needs among the messages that clients send. */
  ghost predicate Possible(cause: Cause, allowed: iset<Payload>) {
    match cause
    case OfferMissing => CanOrphan(allowed) && CanRegister(allowed)
    case NameMissing => CanRename(allowed)
    case TimerMissing => CanFinish(allowed)
  }

  /** A message on the way from connection k to its loop, or in its hands. */
  ghost predicate ConnFrom(s: State, k: Key, allowed: iset<Payload>)
    requires k in s.conns
  {
    var c := s.conns[k];
    && (forall m :: m in c.inbox ==> m in allowed)
    && (forall item :: item in Todo(c.pc) ==> item.payload in allowed && (item.kind.Ice? ==> item.payload.iceTo.Some?))
    && match c.pc
       case Registering(_, _) => CanRegister(allowed)
       case Renaming(_) => CanRename(allowed) || (k in s.registry ==> s.registry[k].Some?)
       case Handling(_) => CanFinish(allowed)
       case Writing(_, _, _) => CanFinish(allowed) && CanRegister(allowed)
       case _ => true
  }

  ghost predicate PanicInv(s: State, allowed: iset<Payload>) {
    && (forall k :: k in s.conns ==> ConnFrom(s, k, allowed))
    && (forall k :: k in s.registry ==> k in s.conns)
    && (forall k :: k in s.registry && s.registry[k].Some? ==> CanRegister(allowed))
    && (s.panic.Some? ==> Possible(s.panic.value, allowed))
  }

  lemma RegisteredFinishes(allowed: iset<Payload>)
    requires CanRegister(allowed)
    ensures CanFinish(allowed)
  {
    var m :| m in allowed && m.register;
    assert m in allowed && (m.register || !m.rename);
  }

  lemma ReadFrom(s: State, k: Key, allowed: iset<Payload>)
    requires PanicInv(s, allowed) && Enabled(s, Read(k))
    ensures ConnFrom(Do(s, Read(k)), k, allowed)
  {
    assert ConnFrom(s, k, allowed);
    var c := s.conns[k];
    var m := c.inbox[0];
    assert m in c.inbox && forall x :: x in c.inbox[1..] ==> x in c.inbox;
    assert forall item :: item in ItemsOf(m) ==> item.payload == m && (item.kind.Ice? ==> m.iceTo.Some?);
    assert m.register ==> CanRegister(allowed);
    assert m.rename && !m.register ==> CanRename(allowed);
    assert !m.rename && !m.register ==> CanFinish(allowed);
  }

  lemma MovedFrom(s: State, step: Step, allowed: iset<Payload>)
    requires !step.Connect? && !step.Read? && Enabled(s, step) && ConnFrom(s, step.k, allowed)
    requires step.ClientSend? ==> step.m in allowed
    requires CanRegister(allowed) ==> CanFinish(allowed)
    requires forall k :: k in s.registry && s.registry[k].Some? ==> CanRegister(allowed)
    ensures ConnFrom(Do(s, step), step.k, allowed)
  {
    if step.Lookup? {
      assert forall item :: item in s.conns[step.k].pc.todo[1..] ==> item in s.conns[step.k].pc.todo;
    }
  }

  lemma OtherFrom(s: State, step: Step, k: Key, allowed: iset<Payload>)
    requires Enabled(s, step) && k != step.k && k in s.conns && ConnFrom(s, k, allowed)
    ensures ConnFrom(Do(s, step), k, allowed)
  {
  }

  lemma CauseIsPossible(s: State, step: Step, allowed: iset<Payload>)
    requires PanicInv(s, allowed) && Enabled(s, step) && Do(s, step).panic.Some?
    ensures Possible(Do(s, step).panic.value, allowed)
  {
    assert ConnFrom(s, step.k, allowed);
    if step.WriteFails? {
      assert s.conns[step.k].pc.item in Todo(s.conns[step.k].pc);
    }
  }

  lemma PanicStep(s: State, step: Step, allowed: iset<Payload>)
    requires PanicInv(s, allowed) && Enabled(s, step) && (step.ClientSend? ==> step.m in allowed)
    ensures PanicInv(Do(s, step), allowed)
  {
    var t := Do(s, step);
    Frame(s, step);
    forall k | k in t.conns
      ensures ConnFrom(t, k, allowed)
    {
      if k != step.k {
        OtherFrom(s, step, k, allowed);
      } else if step.Read? {
        ReadFrom(s, k, allowed);
      } else if !step.Connect? {
        assert ConnFrom(s, k, allowed);
        if CanRegister(allowed) {
          RegisteredFinishes(allowed);
        }
        MovedFrom(s, step, allowed);
      }
    }
    if step.Register? {
      assert ConnFrom(s, step.k, allowed);
    }
    if t.panic.Some? {
      CauseIsPossible(s, step, allowed);
    }
  }

  ghost predicate SendsOnly(steps: seq<Step>, allowed: iset<Payload>) {
    forall step :: step in steps && step.ClientSend? ==> step.m in allowed
  }

  lemma {:induction false} PanicExec(s: State, steps: seq<Step>, allowed: iset<Payload>)
    requires PanicInv(s, allowed) && SendsOnly(steps, allowed)
    ensures PanicInv(Exec(s, steps), allowed)
    decreases |steps|
  {
    if steps == [] {
    } else {
      assert steps[0] in steps;
      if Enabled(s, steps[0]) {
        PanicStep(s, steps[0], allowed);
      }
      PanicExec(Next(s, steps[0]), steps[1..], allowed);
    }
  }

  // ---------------------------------------------------------------- the runs that end it

  /** Some run in which clients send only these messages leads here. */
  ghost predicate Reachable(s: State, allowed: iset<Payload>) {
    exists steps :: SendsOnly(steps, allowed) && Exec(INIT, steps) == s
  }

  lemma {:induction false} ExecAppend(s: State, a: seq<Step>, b: seq<Step>)
    ensures Exec(s, a + b) == Exec(Exec(s, a), b)
    decreases |a|
  {
    if a == [] {
      assert a + b == b;
    } else {
      assert (a + b)[1..] == a[1..] + b;
      ExecAppend(Next(s, a[0]), a[1..], b);
    }
  }

  lemma Reach(s: State, step: Step, allowed: iset<Payload>)
    requires Reachable(s, allowed) && (step.ClientSend? ==> step.m in allowed)
    ensures Reachable(Next(s, step), allowed)
  {
    var steps :| SendsOnly(steps, allowed) && Exec(INIT, steps) == s;
    ExecAppend(INIT, steps, [step]);
    assert [step][1..] == [];
    assert SendsOnly(steps + [step], allowed) && Exec(INIT, steps + [step]) == Next(s, step);
  }

  lemma ReachInit(allowed: iset<Payload>)
    ensures Reachable(INIT, allowed)
  {
    var none: seq<Step> := [];
    assert SendsOnly(none, allowed) && Exec(INIT, none) == INIT;
  }

  /** The state after k has been sent a message and has read it. */
  function Given(s: State, k: Key, m: Payload): State {
    Next(Next(s, ClientSend(k, m)), Read(k))
  }

  lemma ReachGiven(s: State, k: Key, m: Payload, allowed: iset<Payload>)
    requires Reachable(s, allowed) && m in allowed
    ensures Reachable(Given(s, k, m), allowed)
  {
    Reach(s, ClientSend(k, m), allowed);
    Reach(Next(s, ClientSend(k, m)), Read(k), allowed);
  }

  /** A connection that waits for a message, with nothing unread. */
  predicate Ready(s: State, k: Key) {
    && s.panic.None? && k in s.conns && k in s.registry
    && s.conns[k].pc.Idle? && s.conns[k].inbox == [] && s.conns[k].timer
  }

  lemma ReachConnected(a: Key, allowed: iset<Payload>) returns (s: State)
    ensures Reachable(s, allowed) && Ready(s, a) && s.conns.Keys == {a} && s.registry == map[a := None]
  {
    ReachInit(allowed);
    Reach(INIT, Connect(a, 0), allowed);
    s := Next(INIT, Connect(a, 0));
  }

  /** A rename from a client that has not registered. */
  lemma RenameReaches(m: Payload, allowed: iset<Payload>)
    requires m in allowed && m.rename && !m.register
    ensures exists s :: Reachable(s, allowed) && s.panic == Some(NameMissing)
  {
    var s := ReachConnected("a", allowed);
    ReachGiven(s, "a", m, allowed);
    Reach(Given(s, "a", m), Rename("a"), allowed);
    assert Next(Given(s, "a", m), Rename("a")).panic == Some(NameMissing);
  }

  /** The connection has registered and gone back to waiting, the rest of the message given up on an error. */
  function Registers(s: State, k: Key, r: Payload): State {
    Next(Next(Given(s, k, r), Register(k)), Abort(k))
  }

  lemma ReachRegistered(s: State, k: Key, r: Payload, allowed: iset<Payload>)
    requires Reachable(s, allowed) && Ready(s, k) && r in allowed && r.register
    ensures
      var t := Registers(s, k, r);
      && Reachable(t, allowed) && Ready(t, k) && t.registry == s.registry[k := Some(s.conns[k].socket)]
      && forall c :: c != k && c in s.conns ==> c in t.conns && t.conns[c] == s.conns[c]
  {
    ReachGiven(s, k, r, allowed);
    Reach(Given(s, k, r), Register(k), allowed);
    Reach(Next(Given(s, k, r), Register(k)), Abort(k), allowed);
  }

  lemma ReachTwo(a: Key, b: Key, allowed: iset<Payload>) returns (s: State)
    requires a != b
    ensures Reachable(s, allowed) && Ready(s, a) && Ready(s, b)
  {
    var one := ReachConnected(a, allowed);
    var socket: Socket := one.conns[a].socket + 1;
    Reach(one, Connect(b, socket), allowed);
    s := Next(one, Connect(b, socket));
  }

  /** The connection has read the message, has done what it says of its registration and name, and is about to relay. */
  function Began(s: State, k: Key, m: Payload): State {
    Next(Next(Given(s, k, m), Register(k)), Rename(k))
  }

  lemma ReachBegan(s: State, k: Key, m: Payload, allowed: iset<Payload>)
    requires Reachable(s, allowed) && Ready(s, k) && m in allowed && (s.registry[k].Some? || m.register || !m.rename)
    ensures
      var t := Began(s, k, m);
      && Reachable(t, allowed) && t.panic.None? && k in t.conns
      && t.conns[k].pc == Handling(ItemsOf(m)) && t.conns[k].timer
      && forall c :: c != k ==>
           (c in t.registry <==> c in s.registry) && (c in s.registry ==> t.registry[c] == s.registry[c])
  {
    ReachGiven(s, k, m, allowed);
    Reach(Given(s, k, m), Register(k), allowed);
    Reach(Next(Given(s, k, m), Register(k)), Rename(k), allowed);
  }

  /** The write of a candidate without an offer fails. */
  lemma OrphanFails(s: State, k: Key, m: Payload, allowed: iset<Payload>)
    requires Reachable(s, allowed) && s.panic.None? && Orphan(m) && Registered(s.registry, m.iceTo.value)
    requires k in s.conns && s.conns[k].pc == Handling(ItemsOf(m))
    ensures exists t :: Reachable(t, allowed) && t.panic == Some(OfferMissing)
  {
    assert ItemsOf(m) == [Item(Ice, m.iceTo.value, m)];
    Reach(s, Lookup(k), allowed);
    Reach(Next(s, Lookup(k)), WriteFails(k), allowed);
    assert Next(Next(s, Lookup(k)), WriteFails(k)).panic == Some(OfferMissing);
  }

  /**
   * Any candidate without an offer, whatever else its message asks for: sender
   * and addressee register, the candidate is sent, and the write to the
   * addressee fails.
   */
  lemma OrphanReaches(r: Payload, m: Payload, allowed: iset<Payload>)
    requires r in allowed && r.register && m in allowed && Orphan(m)
    ensures exists s :: Reachable(s, allowed) && s.panic == Some(OfferMissing)
  {
    var b := m.iceTo.value;
    var a := b + "-";
    assert |a| != |b|;
    var s0 := ReachTwo(a, b, allowed);
    ReachRegistered(s0, b, r, allowed);
    var s1 := Registers(s0, b, r);
    ReachRegistered(s1, a, r, allowed);
    var s2 := Registers(s1, a, r);
    ReachBegan(s2, a, m, allowed);
    OrphanFails(Began(s2, a, m), a, m, allowed);
  }

  /** None of the items goes to a connection there is. */
  predicate NobodyThere(s: State, todo: seq<Item>) {
    forall item :: item in todo ==> item.to !in s.registry
  }

  /** Items for nobody are passed over, and then the timer that is gone is reset. */
  lemma {:induction false} FinishFails(s: State, k: Key, allowed: iset<Payload>)
    requires Reachable(s, allowed) && s.panic.None? && k in s.conns && s.conns[k].pc.Handling? && !s.conns[k].timer
    requires NobodyThere(s, s.conns[k].pc.todo)
    ensures exists t :: Reachable(t, allowed) && t.panic == Some(TimerMissing)
    decreases |s.conns[k].pc.todo|
  {
    if s.conns[k].pc.todo == [] {
      Reach(s, Finish(k), allowed);
      assert Next(s, Finish(k)).panic == Some(TimerMissing);
    } else {
      assert s.conns[k].pc.todo[0] in s.conns[k].pc.todo;
      Reach(s, Lookup(k), allowed);
      FinishFails(Next(s, Lookup(k)), k, allowed);
    }
  }

  /** The connection has begun with a message, its items are for nobody, and the timeout comes. */
  lemma TimeoutInHandler(s: State, k: Key, m: Payload, allowed: iset<Payload>)
    requires Reachable(s, allowed) && s.panic.None? && k in s.conns && s.conns[k].pc == Handling(ItemsOf(m))
    requires s.conns[k].timer && NobodyThere(s, ItemsOf(m))
    ensures exists t :: Reachable(t, allowed) && t.panic == Some(TimerMissing)
  {
    Reach(s, Expire(k), allowed);
    FinishFails(Next(s, Expire(k)), k, allowed);
  }

  /** A name that no item of the message mentions. */
  lemma NotAddressed(m: Payload) returns (a: Key)
    ensures forall item :: item in ItemsOf(m) ==> item.to != a
  {
    a := m.sdpTo.GetOr("") + m.iceTo.GetOr("") + "-";
    assert |a| > |m.sdpTo.GetOr("")| && |a| > |m.iceTo.GetOr("")|;
  }

  /** Any message a new connection can have handled, if the timeout comes while it is. */
  lemma TimeoutReaches(m: Payload, allowed: iset<Payload>)
    requires m in allowed && (m.register || !m.rename)
    ensures exists s :: Reachable(s, allowed) && s.panic == Some(TimerMissing)
  {
    var a := NotAddressed(m);
    var s := ReachConnected(a, allowed);
    ReachBegan(s, a, m, allowed);
    TimeoutInHandler(Began(s, a, m), a, m, allowed);
  }

  lemma PossibleReaches(cause: Cause, allowed: iset<Payload>)
    requires Possible(cause, allowed)
    ensures exists s :: Reachable(s, allowed) && s.panic == Some(cause)
  {
    match cause
    case OfferMissing =>
      var r :| r in allowed && r.register;
      var m :| m in allowed && Orphan(m);
      OrphanReaches(r, m, allowed);
    case NameMissing =>
      var m :| m in allowed && m.rename && !m.register;
      RenameReaches(m, allowed);
    case TimerMissing =>
      var m :| m in allowed && (m.register || !m.rename);
      TimeoutReaches(m, allowed);
  }

  /**
   * Clients that send only these messages can bring about a nil dereference
   * exactly when the messages make it possible: of the offer when one is a
   * candidate without an offer and one registers; of the name when one renames
   * and does not register; of the timer when one can be handled to the end.
   */
  lemma DereferenceIffPossible(cause: Cause, allowed: iset<Payload>)
    ensures (exists s :: Reachable(s, allowed) && s.panic == Some(cause)) <==> Possible(cause, allowed)
  {
    if Possible(cause, allowed) {
      PossibleReaches(cause, allowed);
    }
    forall s | Reachable(s, allowed) && s.panic == Some(cause)
      ensures Possible(cause, allowed)
    {
      var steps :| SendsOnly(steps, allowed) && Exec(INIT, steps) == s;
      PanicExec(INIT, steps, allowed);
    }
  }

  /** One or another of the three is within reach exactly when clients send anything at all. */
  lemma AnyMessageCanEndIt(allowed: iset<Payload>)
    ensures (exists s :: Reachable(s, allowed) && s.panic.Some?) <==> exists m :: m in allowed
  {
    if m :| m in allowed {
      var cause := if m.register || !m.rename then TimerMissing else NameMissing;
      DereferenceIffPossible(cause, allowed);
    }
    forall s | Reachable(s, allowed) && s.panic.Some?
      ensures exists m :: m in allowed
    {
      DereferenceIffPossible(s.panic.value, allowed);
    }
  }

  // ---------------------------------------------------------------- one message, field by field

  /** One item: written to the socket its addressee has registered, or passed over. */
  lemma RelayNext(s: State, k: Key)
    requires s.panic.None? && k in s.conns && s.conns[k].pc.Handling? && s.conns[k].pc.todo != []
    ensures
      var item := s.conns[k].pc.todo[0];
      var t := Next(Next(s, Lookup(k)), WriteOk(k));
      && t.panic.None? && t.registry == s.registry && k in t.conns
      && t.conns[k] == s.conns[k].(pc := Handling(s.conns[k].pc.todo[1..]))
      && if item.to in s.registry && s.registry[item.to].Some? then
           && |t.log| == |s.log| + 1 && t.log[..|s.log|] == s.log
           && t.log[|s.log|].socket == s.registry[item.to].value
           && t.log[|s.log|].src == k && t.log[|s.log|].item == item
         else t.log == s.log
  {
  }

  lemma NothingToRelay(s: State, k: Key)
    requires k in s.conns && s.conns[k].pc == Handling([])
    ensures Next(Next(s, Lookup(k)), WriteOk(k)) == s
  {
  }

  /** The entry of the log for an item of this kind, in message m, from k to the socket of b. */
  predicate Wrote(w: Write, kind: Kind, k: Key, b: Key, socket: Socket, m: Payload) {
    w.socket == socket && w.src == k && w.item.kind == kind && w.item.to == b && w.item.payload == m
  }

  /** What the log gains from message m of k: its offer and then its candidate, if the addressees are registered. */
  ghost predicate Delivered(log: seq<Write>, later: seq<Write>, k: Key, m: Payload,
        registry: map<Key, Option<Socket>>)
  {
    var n := |log|;
    var offer := m.sdpTo.Some? && m.sdpTo.value in registry && registry[m.sdpTo.value].Some?;
    var candidate := m.iceTo.Some? && m.iceTo.value in registry && registry[m.iceTo.value].Some?;
    && log <= later
    && |later| == n + (if offer then 1 else 0) + (if candidate then 1 else 0)
    && (offer ==> Wrote(later[n], Sdp, k, m.sdpTo.value, registry[m.sdpTo.value].value, m))
    && (candidate ==> Wrote(later[|later| - 1], Ice, k, m.iceTo.value, registry[m.iceTo.value].value, m))
  }

  lemma ItemsDelivered(s: State, k: Key, m: Payload)
    requires s.panic.None? && k in s.conns && s.conns[k].pc == Handling(ItemsOf(m))
    ensures
      var t := Next(Next(Next(Next(s, Lookup(k)), WriteOk(k)), Lookup(k)), WriteOk(k));
      && t.panic.None? && t.registry == s.registry && k in t.conns
      && t.conns[k] == s.conns[k].(pc := Handling([]))
      && Delivered(s.log, t.log, k, m, s.registry)
  {
    var u := Next(Next(s, Lookup(k)), WriteOk(k));
    if ItemsOf(m) == [] {
      NothingToRelay(s, k);
      NothingToRelay(u, k);
    } else {
      RelayNext(s, k);
      if |ItemsOf(m)| == 1 {
        assert ItemsOf(m)[1..] == [];
        NothingToRelay(u, k);
      } else {
        assert ItemsOf(m)[1..] == [Item(Ice, m.iceTo.value, m)];
        RelayNext(u, k);
        assert u.conns[k].pc.todo[1..] == [];
      }
    }
  }

  /**
   * A loop left alone with a message, in any state, registers if the message
   * says so, and writes the offer to the socket its addressee has registered
   * and after it the candidate to the socket of its own, and nothing else.
   */
  lemma MessageDelivered(s: State, k: Key)
    requires Enabled(s, Read(k)) && k in s.registry
    requires s.conns[k].inbox[0].rename ==> s.conns[k].inbox[0].register || s.registry[k].Some?
    ensures
      var m := s.conns[k].inbox[0];
      var t := Exec(s, [Read(k), Register(k), Rename(k)] + [Lookup(k), WriteOk(k), Lookup(k), WriteOk(k)]);
      && t.panic.None? && k in t.conns && t.conns[k].pc == Handling([]) && t.conns[k].inbox == s.conns[k].inbox[1..]
      && t.registry == (if m.register then s.registry[k := Some(s.conns[k].socket)] else s.registry)
      && Delivered(s.log, t.log, k, m, t.registry)
  {
    ReadStarts(s, k);
    var r := AfterRead(s, k);
    ReadKeepsRest(s, k);
    ItemsDelivered(r, k, s.conns[k].inbox[0]);
    var none: seq<Step> := [];
    assert [Read(k), Register(k), Rename(k)] == [Read(k), Register(k)] + ([Rename(k)] + none);
    ExecAppend(s, [Read(k), Register(k), Rename(k)], [Lookup(k), WriteOk(k), Lookup(k), WriteOk(k)]);
    ExecTwo(s, Read(k), Register(k), [Rename(k)] + none);
    assert Exec(Next(Next(s, Read(k)), Register(k)), [Rename(k)] + none) == r;
    assert [Lookup(k), WriteOk(k), Lookup(k), WriteOk(k)] == [Lookup(k), WriteOk(k)] + ([Lookup(k), WriteOk(k)] + none);
    ExecTwo(r, Lookup(k), WriteOk(k), [Lookup(k), WriteOk(k)] + none);
    ExecTwo(Next(Next(r, Lookup(k)), WriteOk(k)), Lookup(k), WriteOk(k), none);
  }

  lemma ReadKeepsRest(s: State, k: Key)
    requires Enabled(s, Read(k)) && k in s.registry
    ensures k in AfterRead(s, k).conns && AfterRead(s, k).conns[k].inbox == s.conns[k].inbox[1..]
  {
  }

  lemma {:induction false} ItemsAreAsked(ms: seq<Payload>, item: Item)
    requires item in Items(ms)
    ensures item.payload in ms
    ensures if item.kind.Sdp? then item.payload.sdpTo == Some(item.to) else item.payload.iceTo == Some(item.to)
  {
    if ms == [] {
    } else {
      if item in Items(ms[..|ms| - 1]) {
        ItemsAreAsked(ms[..|ms| - 1], item);
      } else {
        assert item in ItemsOf(ms[|ms| - 1]);
      }
    }
  }

  /** In every run, what is written was asked for by a message of its sender: an offer or a candidate to that node. */
  lemma WritesAreAsked(steps: seq<Step>, w: Write)
    requires w in Exec(INIT, steps).log
    ensures
      var s := Exec(INIT, steps);
      && w.src in s.conns && w.item.payload in s.conns[w.src].read
      && if w.item.kind.Sdp? then w.item.payload.sdpTo == Some(w.item.to) else w.item.payload.iceTo == Some(w.item.to)
  {
    ExecInv(INIT, steps);
    var s := Exec(INIT, steps);
    assert WriteInv(s, w);
    assert Items(s.conns[w.src].read)[w.pos] in Items(s.conns[w.src].read);
    ItemsAreAsked(s.conns[w.src].read, w.item);
  }

  /** A new connection is known and not registered; one that has ended is known no more. */
  lemma ComesAndGoes(s: State, k: Key, socket: Socket)
    requires s.panic.None?
    ensures k !in s.conns && (forall c :: c in s.conns ==> s.conns[c].socket != socket) ==>
              var t := Next(s, Connect(k, socket));
              && t.registry == s.registry[k := None] && k in t.conns && t.conns[k].socket == socket
              && t.conns[k].pc.Idle? && t.conns[k].inbox == [] && t.log == s.log
    ensures k in s.conns ==> Next(Next(s, Expire(k)), Close(k)).registry == s.registry - {k}
    ensures k in s.conns ==> forall m ::
              var t := Next(s, ClientSend(k, m));
              && k in t.conns && t.conns[k] == s.conns[k].(inbox := s.conns[k].inbox + [m])
              && t.registry == s.registry && t.log == s.log
  {
  }

  /** A run goes on with one step at a time, and a step that is not enabled is skipped. */
  lemma ExecOneMore(s: State, steps: seq<Step>, step: Step)
    ensures Exec(s, []) == s && Exec(s, steps + [step]) == Next(Exec(s, steps), step)
  {
    ExecAppend(s, steps, [step]);
    assert [step][1..] == [];
  }
}
