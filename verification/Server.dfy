/** The game server (Server/main.cpp): a registry of four-slot games, and clients
    whose packets are handled one at a time. */
module Server {

  const MAX_PLAYERS := 4
  const PLR_BROADCAST := 0xFF

  datatype Rejection = AlreadyInGame | GameNotFound | IncorrectPassword | VersionMismatch | GameFull | GameExists

  /** What a client may send. */
  datatype Request =
    | ClientInfo(version: int)
    | GameList
    | CreateGame(cookie: int, name: string, password: string, difficulty: int)
    | JoinGame(cookie: int, name: string, password: string)
    | LeaveGame
    | DropPlayer(id: nat, reason: int)
    | Message(id: nat, payload: seq<int>)
    | Turn(turn: int)
    | Malformed

  const LEAVE_NORMAL := 3
  const SERVER_VERSION := 1

  /** The two words of `init_info`: a random seed, and the game's difficulty. */
  datatype InitInfo = InitInfo(seed: int, difficulty: int)

  /** What the server sends. */
  datatype Reply =
    | ServerInfo(version: int)
    | Games(list: set<(string, int, bool)>)
    | JoinAccept(cookie: int, index: int, initInfo: InitInfo)
    | JoinReject(cookie: int, reason: Rejection)
    | Connect(id: int)
    | Disconnect(id: int, leaveReason: int)
    | MessageFrom(id: int, payload: seq<int>)
    | TurnFrom(id: int, turn: int)

  /** A recipient mask: `1u << id`, `~(1u << id)`, or PLR_BROADCAST itself. */
  datatype Mask = Bit(id: int) | AllBut(id: int) | LowByte {
    predicate Has(index: int) {
      match this
      case Bit(id) => index == id
      case AllBut(id) => index != id
      case LowByte => 0 <= index < 8
    }
  }

  class Client {
    var game: Game?
    var id: int
    var version: int
    var open: bool
    var outbox: seq<Reply>

    /** `on_connect` greets the newcomer. */
    constructor ()
      ensures game == null && id == PLR_BROADCAST && version == 0 && open && outbox == [ServerInfo(SERVER_VERSION)]
    {
      game, id, version, open, outbox := null, PLR_BROADCAST, 0, true, [ServerInfo(SERVER_VERSION)];
    }

    method Send(r: Reply)
      modifies this`outbox
      ensures outbox == old(outbox) + [r]
    {
      outbox := outbox + [r];
    }

    method OnLeave()
      modifies this`game, this`id
      ensures game == null && id == PLR_BROADCAST
    {
      game := null;
      id := PLR_BROADCAST;
    }
  }

  class Game {
    const version: int
    const name: string
    const password: string
    const difficulty: int
    const initInfo: InitInfo
    var players: seq<Client?>

    constructor (version: int, name: string, password: string, difficulty: int, seed: int)
      ensures this.version == version && this.name == name && this.password == password
      ensures this.difficulty == difficulty && initInfo == InitInfo(seed, difficulty)
      ensures players == [null, null, null, null]
    {
      this.version, this.name, this.password := version, name, password;
      this.difficulty, initInfo := difficulty, InitInfo(seed, difficulty);
      players := [null, null, null, null];
    }

    /** Four slots, and no client in two of them. */
    ghost predicate Seated()
      reads this`players
    {
      && |players| == MAX_PLAYERS
      && forall i, j :: 0 <= i < j < MAX_PLAYERS && players[i] != null ==> players[i] != players[j]
    }

    method Full() returns (full: bool)
      requires |players| == MAX_PLAYERS
      ensures full <==> null !in players
    {
      for i := 0 to MAX_PLAYERS
        invariant null !in players[..i]
      {
        if players[i] == null { return false; }
      }
      return true;
    }

    /** Every open member whose bit is in the mask gets the packet, once, and nobody else. */
    method Send(mask: Mask, p: Reply)
      requires Seated()
      modifies (set c | c in players && c != null)`outbox
      ensures forall i :: 0 <= i < MAX_PLAYERS && players[i] != null ==>
        players[i].outbox == old(players[i].outbox) + (if players[i].open && mask.Has(i) then [p] else [])
    {
      for i := 0 to MAX_PLAYERS
        invariant forall k :: 0 <= k < MAX_PLAYERS && players[k] != null ==>
          players[k].outbox == old(players[k].outbox) + (if k < i && players[k].open && mask.Has(k) then [p] else [])
      {
        if players[i] != null {
          if players[i].open && mask.Has(i) {
            players[i].Send(p);
          }
        }
      }
    }
  }

  class Registry {
    var games: map<string, Game>
    ghost var clients: set<Client>
    ghost var listening: set<Client>  // the clients that a pending operation of their socket refers to

    constructor ()
      ensures Valid() && games == map[] && clients == {} && listening == {}
    {
      games, clients, listening := map[], {}, {};
    }

    /** Whoever sits in slot i of g is in g under number i. */
    ghost predicate GameOk(g: Game)
      reads this`clients, g`players, clients`game, clients`id
    {
      && g.Seated()
      && forall i :: 0 <= i < MAX_PLAYERS && g.players[i] != null ==>
           g.players[i] in clients && g.players[i].game == g && g.players[i].id == i
    }

    /** Whoever is in a game is in a registered one and sits in it. */
    ghost predicate ClientOk(c: Client)
      reads this`games, c`game, c`id, games.Values`players
    {
      if c.game == null then c.id == PLR_BROADCAST
      else
        && c.game.name in games && games[c.game.name] == c.game
        && 0 <= c.id < MAX_PLAYERS && |games[c.game.name].players| == MAX_PLAYERS
        && games[c.game.name].players[c.id] == c
    }

    /** The two directions of "client c has game g and number i iff slot i of g holds c". */
    ghost predicate Linked()
      reads this`games, this`clients, clients`game, clients`id, games.Values`players
    {
      && (forall n :: n in games ==> games[n].name == n && GameOk(games[n]))
      && (forall c :: c in clients ==> ClientOk(c))
    }

    ghost predicate Occupied(g: Game)
      reads g`players
    {
      exists i :: 0 <= i < |g.players| && g.players[i] != null
    }

    ghost predicate Valid()
      reads this`games, this`clients, clients`game, clients`id, games.Values`players
    {
      Linked() && forall n :: n in games ==> Occupied(games[n])
    }

    // ------------------------------------------------------- what a step changes

    ghost function OpenMembers(g: Game): set<Client>
      reads this`clients, clients`game, clients`open
    {
      set d | d in clients && d.game == g && d.open
    }

    /** Everybody was sent exactly their part of the mail. */
    twostate predicate Posted(mail: map<Client, seq<Reply>>)
      reads this`clients, clients`outbox
    {
      forall d :: d in clients && d in old(clients) ==>
        d.outbox == old(d.outbox) + if d in mail then mail[d] else []
    }

    /** The same packet to each of them. */
    ghost function ToAll(ds: set<Client>, p: Reply): map<Client, seq<Reply>> {
      map d | d in ds :: [p]
    }

    /** Nobody took or left a seat. */
    twostate predicate SameSeats()
      reads this`games, this`clients, games.Values`players, clients`game, clients`id
    {
      && games == old(games) && clients == old(clients)
      && (forall n :: n in games ==> games[n].players == old(games[n].players))
      && (forall d :: d in clients ==> d.game == old(d.game) && d.id == old(d.id))
    }

    /** c is the only one who changed seats, and g the only game whose seats changed. */
    twostate predicate OnlySeat(c: Client, new g: Game)
      reads this`games, this`clients, games.Values`players, clients`game, clients`id
    {
      && clients == old(clients)
      && (forall n :: n in old(games) && n in games && games[n] != g ==> games[n].players == old(games[n].players))
      && (forall d :: d in clients && d != c ==> d.game == old(d.game) && d.id == old(d.id))
    }

    /** What the newcomer itself hears. */
    function Welcome(cookie: int, id: int, initInfo: InitInfo, open: bool): seq<Reply> {
      [JoinAccept(cookie, id, initInfo)] + if open then [Connect(id)] else []
    }

    lemma InGameMeansSeated(c: Client)
      requires Valid() && c in clients && c.game != null
      ensures InSomeSlot(c)
    {
      assert games[c.game.name].players[c.id] == c;
    }

    ghost predicate InSomeSlot(c: Client)
      reads this`games, games.Values`players
    {
      exists n, i :: n in games && 0 <= i < |games[n].players| && games[n].players[i] == c
    }

    /** A new connection. */
    method Accept() returns (c: Client)
      requires Valid()
      modifies this`clients, this`listening
      ensures Valid() && fresh(c) && clients == old(clients) + {c} && listening == old(listening) + {c}
        && c.game == null && c.open && c.outbox == [ServerInfo(SERVER_VERSION)]
    {
      c := new Client();
      clients := clients + {c};
      listening := listening + {c};
    }

    /** The connection is gone and its last operation with it. Nobody tells the game: the
        client keeps its seat, and the game, until a member drops it. */
    method HangUp(c: Client)
      requires Valid() && c in listening
      modifies this`listening, c`open
      ensures Valid() && !c.open && listening == old(listening) - {c}
      ensures c in clients && c.game != null ==> InSomeSlot(c)
    {
      c.open := false;
      listening := listening - {c};
      if c in clients && c.game != null { InGameMeansSeated(c); }
    }

    /** The destructor. It runs once nobody refers to the client any more, neither its
        socket nor a slot; that no slot does is enough: it has no game to leave, so no
        game changes. */
    method Destroy(c: Client)
      requires Valid() && c in clients && !InSomeSlot(c)
      modifies this`clients
      ensures Valid() && c.game == null && clients == old(clients) - {c}
    {
      if c.game != null {
        // not reached: `game_->drop_player(id_, LEAVE_DROP)`
        InGameMeansSeated(c);
        assert false;
      }
      clients := clients - {c};
    }

    /** The list names exactly the games of this version with a free slot. */
    ghost predicate Lists(list: set<(string, int, bool)>, version: int)
      reads this`games, games.Values`players
    {
      forall n, d, w :: (n, d, w) in list <==>
        n in games && games[n].version == version && null in games[n].players
        && d == games[n].difficulty && w == (games[n].password != "")
    }

    /** The games a client of this version can join. */
    method GetGameList(version: int) returns (list: set<(string, int, bool)>)
      requires Valid()
      ensures Lists(list, version)
    {
      list := {};
      var todo := games.Keys;
      while todo != {}
        invariant todo <= games.Keys
        invariant forall n, d, w :: (n, d, w) in list <==>
          n in games.Keys - todo && games[n].version == version && null in games[n].players
          && d == games[n].difficulty && w == (games[n].password != "")
        decreases todo
      {
        var n :| n in todo;
        var full := games[n].Full();
        if games[n].version == version && !full {
          list := list + {(n, games[n].difficulty, games[n].password != "")};
        }
        todo := todo - {n};
      }
    }

    /** `game_->send`, seen from the clients. */
    method Relay(g: Game, mask: Mask, p: Reply)
      requires Linked() && g.name in games && games[g.name] == g
      modifies clients`outbox
      ensures Linked()
      ensures forall d :: d in clients ==>
        d.outbox == old(d.outbox) + if d.game == g && d.open && mask.Has(d.id) then [p] else []
    {
      MembersSit(g);
      SeatedOf(g);
      g.Send(mask, p);
      forall d | d in clients
        ensures d.outbox == old(d.outbox) + if d.game == g && d.open && mask.Has(d.id) then [p] else []
      {
        if d.game == g {
          assert g.players[d.id] == d;
        } else {
          assert forall i :: 0 <= i < MAX_PLAYERS ==> g.players[i] != d;
        }
      }
    }

    /** The same packet to every open member. */
    method Announce(g: Game, p: Reply)
      requires Linked() && g.name in games && games[g.name] == g
      modifies clients`outbox
      ensures Linked() && Posted(old(ToAll(OpenMembers(g), p)))
    {
      MembersSit(g);
      Relay(g, LowByte, p);
    }

    /** Clears slot id of g and frees its client. */
    method ClearSlot(g: Game, id: int)
      requires Linked() && g.name in games && games[g.name] == g && 0 <= id < MAX_PLAYERS
      modifies g`players, clients`game, clients`id
      ensures Linked() && g.players == old(g.players)[id := null]
      ensures forall d :: d in clients ==>
        if old(d.game) == g && old(d.id) == id then d.game == null && d.id == PLR_BROADCAST
        else d.game == old(d.game) && d.id == old(d.id)
    {
      MembersSit(g);
      if g.players[id] != null {
        g.players[id].OnLeave();
      }
      g.players := g.players[id := null];
      forall n | n in games ensures games[n].name == n && GameOk(games[n]) {
        assert old(GameOk(games[n]));
      }
      forall d | d in clients ensures ClientOk(d) {
        assert old(ClientOk(d));
      }
    }

    /** `close_game` for a game without members. */
    method CloseGame(g: Game)
      requires Linked() && g.name in games && games[g.name] == g && !Occupied(g)
      modifies this`games
      ensures Linked() && games == old(games) - {g.name}
    {
      games := games - {g.name};
    }

    /** Leaving a slot of a game: every open member, the leaver included, is told;
        the slot is cleared; and the game closes with its last member. */
    method DropPlayer(g: Game, id: int, reason: int)
      requires Valid() && g.name in games && games[g.name] == g && 0 <= id < MAX_PLAYERS
      modifies this`games, g`players, clients`outbox, clients`game, clients`id
      ensures Valid() && g.players == old(g.players)[id := null]
      ensures games == if Occupied(g) then old(games) else old(games) - {g.name}
      ensures Posted(old(ToAll(OpenMembers(g), Disconnect(id, reason))))
      ensures forall d :: d in clients ==>
        if old(d.game) == g && old(d.id) == id then d.game == null && d.id == PLR_BROADCAST
        else d.game == old(d.game) && d.id == old(d.id)
    {
      hide Linked, GameOk, ClientOk, Posted, OpenMembers;
      MembersSit(g);
      Announce(g, Disconnect(id, reason));
      ClearSlot(g, id);
      var occupied := AnyPlayer(g);
      if !occupied { CloseGame(g); }
    }

    method AnyPlayer(g: Game) returns (any: bool)
      requires |g.players| == MAX_PLAYERS
      ensures any <==> Occupied(g)
    {
      for i := 0 to MAX_PLAYERS
        invariant forall k :: 0 <= k < i ==> g.players[k] == null
      {
        if g.players[i] != null { return true; }
      }
      return false;
    }

    lemma SeatedOf(g: Game)
      requires Linked() && g.name in games && games[g.name] == g
      ensures g.Seated()
    {}

    /** The clients in g are those in its slots. */
    lemma MembersSit(g: Game)
      requires Linked() && g.name in games && games[g.name] == g
      ensures |g.players| == MAX_PLAYERS
      ensures forall d :: d in clients && d.game == g ==> 0 <= d.id < MAX_PLAYERS && g.players[d.id] == d
      ensures forall i :: 0 <= i < MAX_PLAYERS && g.players[i] != null ==>
        g.players[i] in clients && g.players[i].game == g && g.players[i].id == i
    {
      assert GameOk(g);
      forall d | d in clients && d.game == g ensures 0 <= d.id < MAX_PLAYERS && g.players[d.id] == d {
        assert ClientOk(d);
      }
    }

    /** `game_instance::join`: the first free slot, if there is one. */
    method Seat(g: Game, c: Client, cookie: int) returns (id: int)
      requires g.Seated() && c !in g.players
      modifies g`players, c`outbox, (set m | m in g.players && m != null)`outbox
      ensures id == PLR_BROADCAST ==> null !in old(g.players) && g.players == old(g.players)
                                      && c.outbox == old(c.outbox) + [JoinReject(cookie, GameFull)]
                                      && forall m :: m in g.players && m != null ==> m.outbox == old(m.outbox)
      ensures id != PLR_BROADCAST ==>
        && 0 <= id < MAX_PLAYERS && old(g.players)[id] == null && null !in old(g.players)[..id]
        && g.players == old(g.players)[id := c] && g.Seated()
        && c.outbox == old(c.outbox) + [JoinAccept(cookie, id, g.initInfo)] + (if c.open then [Connect(id)] else [])
        && forall m :: m in old(g.players) && m != null ==>
           m.outbox == old(m.outbox) + (if m.open then [Connect(id)] else [])
    {
      ghost var was := g.players;
      for index := 0 to MAX_PLAYERS
        invariant g.players == was && null !in was[..index]
        invariant c.outbox == old(c.outbox) && forall m :: m in was && m != null ==> m.outbox == old(m.outbox)
      {
        if g.players[index] == null {
          g.players := g.players[index := c];
          c.Send(JoinAccept(cookie, index, g.initInfo));
          label before:
          g.Send(LowByte, Connect(index));
          assert g.players[index] == c;
          forall m | m in was && m != null
            ensures m.outbox == old(m.outbox) + (if m.open then [Connect(index)] else [])
          {
            var k :| 0 <= k < MAX_PLAYERS && was[k] == m;
            assert g.players[k] == m;
          }
          return index;
        }
      }
      c.Send(JoinReject(cookie, GameFull));
      return PLR_BROADCAST;
    }

    /** Why a client cannot join, if anything speaks against it. */
    ghost function Refusal(c: Client, name: string, password: string): (r: set<Rejection>)
      reads this`games, c`version, games.Values`players
    {
      if name !in games then {GameNotFound}
      else if games[name].version != c.version then {VersionMismatch}
      else if games[name].password != password then {IncorrectPassword}
      else if null !in games[name].players then {GameFull}
      else {}
    }

    /** The client was turned away, or took a seat. */
    twostate predicate Entered(c: Client, cookie: int, name: string)
      requires c in clients && name in games
      reads this`games, this`clients, games.Values`players, clients`game, clients`id, clients`outbox
    {
      var g, i := games[name], c.id;
      && games == old(games) && OnlySeat(c, g) && c.game == g
      && 0 <= i < MAX_PLAYERS && |old(g.players)| == MAX_PLAYERS
      && old(g.players)[i] == null && null !in old(g.players)[..i] && g.players == old(g.players)[i := c]
      && Posted(old(ToAll(OpenMembers(g), Connect(i)))[c := Welcome(cookie, i, g.initInfo, old(c.open))])
    }

    twostate predicate Refused(c: Client, cookie: int, reason: Rejection)
      reads this`games, this`clients, games.Values`players, clients`game, clients`id, clients`outbox
    {
      SameSeats() && Posted(map[c := [JoinReject(cookie, reason)]])
    }

    /** `player_client::join` */
    method Join(c: Client, cookie: int, name: string, password: string)
      requires Linked() && c in clients && c.game == null
      modifies clients`outbox, c`game, c`id, games.Values`players
      ensures Linked()
      ensures forall r :: r in old(Refusal(c, name, password)) ==> Refused(c, cookie, r)
      ensures old(Refusal(c, name, password)) == {} ==> name in games && Entered(c, cookie, name)
    {
      hide Linked, GameOk, ClientOk, OpenMembers, Entered;
      if name !in games {
        c.Send(JoinReject(cookie, GameNotFound));
      } else if games[name].version != c.version {
        c.Send(JoinReject(cookie, VersionMismatch));
      } else if games[name].password != password {
        c.Send(JoinReject(cookie, IncorrectPassword));
      } else {
        assert games[name].name == name by { Named(name); }
        Enter(games[name], c, cookie);
      }
    }

    lemma Named(n: string)
      requires Linked() && n in games
      ensures games[n].name == n
    {}

    /** Takes a seat in a registered game and remembers it. */
    method Enter(g: Game, c: Client, cookie: int)
      requires Linked() && c in clients && c.game == null && g.name in games && games[g.name] == g
      modifies clients`outbox, c`game, c`id, g`players
      ensures Linked()
      ensures null !in old(g.players) ==> Refused(c, cookie, GameFull)
      ensures null in old(g.players) ==> Entered(c, cookie, g.name)
    {
      hide Linked, GameOk, ClientOk, OpenMembers, ToAll, AlmostLinked, Welcome;
      MembersSit(g);
      OthersDiffer(g);
      var id := OfferSeat(g, c, cookie);
      if id != PLR_BROADCAST {
        Remember(g, c, id);
      }
    }

    lemma OthersDiffer(g: Game)
      requires Linked()
      ensures forall n :: n in games && n != g.name ==> games[n] != g
    {}

    /** c sits in slot id of g, and everything but its own memory of that is in order. */
    ghost predicate AlmostLinked(g: Game, c: Client, id: int)
      reads this`games, this`clients, clients`game, clients`id, games.Values`players, g`players
    {
      && g.name in games && games[g.name] == g && g.Seated() && 0 <= id < MAX_PLAYERS && g.players[id] == c
      && (forall i :: 0 <= i < MAX_PLAYERS && i != id && g.players[i] != null ==>
            g.players[i] in clients && g.players[i].game == g && g.players[i].id == i)
      && (forall n :: n in games ==> games[n].name == n)
      && (forall n :: n in games && games[n] != g ==> GameOk(games[n]) && c !in games[n].players)
      && (forall d :: d in clients && d != c ==> ClientOk(d))
    }

    /** `game_->join`, seen from the clients. */
    method OfferSeat(g: Game, c: Client, cookie: int) returns (id: int)
      requires Linked() && c in clients && c.game == null && g.name in games && games[g.name] == g
      modifies clients`outbox, g`players
      ensures id == PLR_BROADCAST ==>
        && Linked() && null !in old(g.players) && g.players == old(g.players)
        && Posted(map[c := [JoinReject(cookie, GameFull)]])
      ensures id != PLR_BROADCAST ==>
        && AlmostLinked(g, c, id) && |old(g.players)| == MAX_PLAYERS
        && old(g.players)[id] == null && null !in old(g.players)[..id] && g.players == old(g.players)[id := c]
        && Posted(old(ToAll(OpenMembers(g), Connect(id)))[c := Welcome(cookie, id, g.initInfo, old(c.open))])
    {
      FreeIsUnseated(g, c);
      MembersSit(g);
      id := Seat(g, c, cookie);
      if id != PLR_BROADCAST {
        forall n | n in games && games[n] != g ensures GameOk(games[n]) && c !in games[n].players {
          assert old(GameOk(games[n]));
        }
        forall d | d in clients && d != c ensures ClientOk(d) {
          assert old(ClientOk(d));
        }
      }
    }

    method Remember(g: Game, c: Client, id: int)
      requires AlmostLinked(g, c, id) && c in clients
      modifies c`game, c`id
      ensures Linked() && c.game == g && c.id == id
    {
      c.game := g;
      c.id := id;
      forall n | n in games ensures GameOk(games[n]) {
        if games[n] != g { assert old(GameOk(games[n])); }
      }
      forall d | d in clients && d != c ensures ClientOk(d) {
        assert old(ClientOk(d));
      }
    }

    lemma FreeIsUnseated(g: Game, c: Client)
      requires Linked() && g.name in games && games[g.name] == g && c.game == null
      ensures c !in g.players && forall n :: n in games ==> c !in games[n].players
    {
      forall n | n in games ensures c !in games[n].players { assert GameOk(games[n]); }
    }

    /** `create_game` for a free name: a game with four empty slots. */
    method Register(version: int, name: string, password: string, difficulty: int, seed: int)
      requires Linked() && name !in games
      modifies this`games
      ensures Linked() && name in games && fresh(games[name]) && games == old(games)[name := games[name]]
      ensures games[name].version == version && games[name].password == password && games[name].difficulty == difficulty
      ensures games[name].initInfo == InitInfo(seed, difficulty)
      ensures games[name].players == [null, null, null, null]
    {
      var g := new Game(version, name, password, difficulty, seed);
      games := games[name := g];
    }

    /** A new game with its creator in slot 0. */
    twostate predicate Created(c: Client, cookie: int, name: string, password: string, difficulty: int, seed: int)
      requires c in clients
      reads this`games, this`clients, games.Values`players, clients`game, clients`id, clients`outbox, c`version
    {
      && name in games && fresh(games[name]) && games == old(games)[name := games[name]]
      && var g := games[name];
         && g.version == c.version && g.password == password && g.difficulty == difficulty
         && g.initInfo == InitInfo(seed, difficulty)
         && g.players == [c, null, null, null] && c.game == g && c.id == 0 && OnlySeat(c, g)
         && Posted(map[c := Welcome(cookie, 0, g.initInfo, old(c.open))])
    }

    /** Joining the game one has just created. */
    method Enter0(c: Client, cookie: int, name: string, password: string)
      requires Linked() && c in clients && c.game == null && name in games
      requires games[name].players == [null, null, null, null] && games[name].version == c.version
        && games[name].password == password
      requires forall n :: n in games && n != name ==> Occupied(games[n])
      modifies clients`outbox, c`game, c`id, games.Values`players
      ensures Valid() && games == old(games) && c.game == games[name] && c.id == 0
      ensures games[name].players == [c, null, null, null] && OnlySeat(c, games[name])
      ensures Posted(map[c := Welcome(cookie, 0, games[name].initInfo, old(c.open))])
    {
      NobodyIn(games[name]);
      Join(c, cookie, name, password);
      assert games[name].players[0] == c;
    }

    lemma NobodyIn(g: Game)
      requires Linked() && g.name in games && games[g.name] == g && g.players == [null, null, null, null]
      ensures OpenMembers(g) == {}
      ensures forall k :: 0 < k <= MAX_PLAYERS ==> null in g.players[..k]
    {
      MembersSit(g);
      forall k | 0 < k <= MAX_PLAYERS ensures null in g.players[..k] { assert g.players[..k][0] == null; }
    }

    // ------------------------------------------------------- the handlers

    method HandleCreate(c: Client, cookie: int, name: string, password: string, difficulty: int, seed: int)
      requires Valid() && c in clients
      modifies this`games, c`game, c`id, clients`outbox, games.Values`players
      ensures Valid()
      ensures old(c.game) != null ==> Refused(c, cookie, AlreadyInGame)
      ensures old(c.game) == null && name in old(games) ==> Refused(c, cookie, GameExists)
      ensures old(c.game) == null && name !in old(games) ==> Created(c, cookie, name, password, difficulty, seed)
    {
      hide Linked, GameOk, ClientOk, OpenMembers;
      if c.game != null {
        c.Send(JoinReject(cookie, AlreadyInGame));
      } else if name in games {
        c.Send(JoinReject(cookie, GameExists));
      } else {
        CreateAndEnter(c, cookie, name, password, difficulty, seed);
      }
    }

    method CreateAndEnter(c: Client, cookie: int, name: string, password: string, difficulty: int, seed: int)
      requires Valid() && c in clients && c.game == null && name !in games
      modifies this`games, c`game, c`id, clients`outbox, games.Values`players
      ensures Valid() && Created(c, cookie, name, password, difficulty, seed)
    {
      hide Linked, GameOk, ClientOk, Welcome;
      Register(c.version, name, password, difficulty, seed);
      Enter0(c, cookie, name, password);
    }

    method HandleJoin(c: Client, cookie: int, name: string, password: string)
      requires Valid() && c in clients
      modifies c`game, c`id, clients`outbox, games.Values`players
      ensures Valid()
      ensures old(c.game) != null ==> Refused(c, cookie, AlreadyInGame)
      ensures old(c.game) == null ==> forall r :: r in old(Refusal(c, name, password)) ==> Refused(c, cookie, r)
      ensures old(c.game) == null && old(Refusal(c, name, password)) == {} ==>
        name in games && Entered(c, cookie, name)
    {
      hide Linked, GameOk, ClientOk, OpenMembers;
      if c.game != null {
        c.Send(JoinReject(cookie, AlreadyInGame));
      } else {
        Join(c, cookie, name, password);
        forall n | n in games ensures Occupied(games[n]) {
          assert old(Occupied(games[n]));
          if c.game == games[n] { assert games[n].players[c.id] == c; }
        }
      }
    }

    /** Slot id of g is cleared, and g told; without members g closes. */
    twostate predicate Dropped(g: Game, id: int, reason: int)
      reads this`games, this`clients, games.Values`players, g`players, clients`game, clients`id, clients`outbox
    {
      && 0 <= id < |old(g.players)| && g.players == old(g.players)[id := null] && clients == old(clients)
      && games == (if Occupied(g) then old(games) else old(games) - {g.name})
      && (forall n :: n in games && games[n] != g ==> games[n].players == old(games[n].players))
      && (forall d :: d in clients ==>
            if old(d.game) == g && old(d.id) == id then d.game == null && d.id == PLR_BROADCAST
            else d.game == old(d.game) && d.id == old(d.id))
      && Posted(old(ToAll(OpenMembers(g), Disconnect(id, reason))))
    }

    twostate predicate NothingDone()
      reads this`games, this`clients, games.Values`players, clients`game, clients`id, clients`outbox
    {
      SameSeats() && Posted(map[])
    }

    method HandleLeave(c: Client)
      requires Valid() && c in clients
      modifies this`games, clients`outbox, clients`game, clients`id, games.Values`players
      ensures Valid()
      ensures if old(c.game) == null then NothingDone() else Dropped(old(c.game), old(c.id), LEAVE_NORMAL)
    {
      if c.game != null {
        DropPlayer(c.game, c.id, LEAVE_NORMAL);
      }
    }

    /** Any member may drop any slot of its game. */
    method HandleDrop(c: Client, id: int, reason: int)
      requires Valid() && c in clients && 0 <= id < MAX_PLAYERS
      modifies this`games, clients`outbox, clients`game, clients`id, games.Values`players
      ensures Valid()
      ensures if old(c.game) == null then NothingDone() else Dropped(old(c.game), id, reason)
    {
      if c.game != null {
        DropPlayer(c.game, id, reason);
      }
    }

    /** Whom a message of c is for: the member with that number, or all the others. */
    ghost function Audience(c: Client, id: nat): set<Client>
      reads this`clients, clients`game, clients`id, clients`open, c`game
    {
      set d | d in clients && c.game != null && d.game == c.game && d.open
              && if id == PLR_BROADCAST then d != c else d.id == id
    }

    /** A message reaches its addressee, or with PLR_BROADCAST exactly the other open
        members of the sender's game, under the sender's number. */
    method HandleMessage(c: Client, id: nat, payload: seq<int>)
      requires Valid() && c in clients && (id < 32 || id == PLR_BROADCAST)
      modifies clients`outbox
      ensures Valid() && SameSeats()
      ensures Posted(ToAll(Audience(c, id), MessageFrom(c.id, payload)))
    {
      hide Linked, GameOk;
      if c.game != null {
        SeatOf(c);
        Relay(c.game, if id == PLR_BROADCAST then AllBut(c.id) else Bit(id), MessageFrom(c.id, payload));
      }
    }

    lemma SeatOf(c: Client)
      requires Linked() && c in clients && c.game != null
      ensures c.game.name in games && games[c.game.name] == c.game
      ensures forall d :: d in clients && d.game == c.game ==> (d.id == c.id <==> d == c)
    {
      MembersSit(c.game);
    }

    method HandleTurn(c: Client, turn: int)
      requires Valid() && c in clients
      modifies clients`outbox
      ensures Valid() && SameSeats()
      ensures Posted(ToAll(Audience(c, PLR_BROADCAST), TurnFrom(c.id, turn)))
    {
      hide Linked, GameOk;
      if c.game != null {
        SeatOf(c);
        Relay(c.game, AllBut(c.id), TurnFrom(c.id, turn));
      }
    }

    /** What one packet of client c does, who was in game `was` (or in none). */
    twostate predicate Handled(c: Client, was: Game?, request: Request, seed: int)
      requires c in clients
      reads this`games, this`clients, games.Values`players, clients`game, clients`id, clients`outbox, clients`version
      reads if was == null then {} else {was}
    {
      match request
      case GameList =>
        if was == null then
          SameSeats() && exists list :: Lists(list, c.version) && Posted(map[c := [Games(list)]])
        else NothingDone()
      case CreateGame(cookie, name, password, difficulty) =>
        if was != null then Refused(c, cookie, AlreadyInGame)
        else if name in old(games) then Refused(c, cookie, GameExists)
        else Created(c, cookie, name, password, difficulty, seed)
      case JoinGame(cookie, name, password) =>
        if was != null then Refused(c, cookie, AlreadyInGame)
        else if old(Refusal(c, name, password)) == {} then name in games && Entered(c, cookie, name)
        else forall r :: r in old(Refusal(c, name, password)) ==> Refused(c, cookie, r)
      case LeaveGame =>
        if was == null then NothingDone() else Dropped(was, old(c.id), LEAVE_NORMAL)
      case DropPlayer(id, reason) =>
        if was == null then NothingDone() else Dropped(was, id, reason)
      case Message(id, payload) =>
        SameSeats() && Posted(old(ToAll(Audience(c, id), MessageFrom(c.id, payload))))
      case Turn(turn) =>
        SameSeats() && Posted(old(ToAll(Audience(c, PLR_BROADCAST), TurnFrom(c.id, turn))))
      case ClientInfo(_) => NothingDone()
      case Malformed => NothingDone()
    }

    /** One packet of one client, with `trailing` bytes behind it or not: every step of
        the server keeps it in order. */
    method OnReceive(c: Client, request: Request, trailing: bool, seed: int)
      requires Valid() && c in clients
      requires request.DropPlayer? ==> request.id < MAX_PLAYERS
      requires request.Message? ==> request.id < 32 || request.id == PLR_BROADCAST
      modifies this`games, clients, games.Values`players
      ensures Valid() && clients == old(clients) && Handled(c, old(c.game), request, seed)
      ensures forall d :: d in clients ==> d.open == (old(d.open) && !(d == c && (trailing || request.Malformed?)))
      ensures forall d :: d in clients ==>
        d.version == if d == c && request.ClientInfo? then request.version else old(d.version)
    {
      hide Handled, Valid;
      Handle(c, request, seed);
      if trailing {
        c.open := false;
      }
    }

    method Handle(c: Client, request: Request, seed: int)
      requires Valid() && c in clients
      requires request.DropPlayer? ==> request.id < MAX_PLAYERS
      requires request.Message? ==> request.id < 32 || request.id == PLR_BROADCAST
      modifies this`games, clients, games.Values`players
      ensures Valid() && clients == old(clients) && Handled(c, old(c.game), request, seed)
      ensures forall d :: d in clients ==> d.open == (old(d.open) && !(d == c && request.Malformed?))
      ensures forall d :: d in clients ==>
        d.version == if d == c && request.ClientInfo? then request.version else old(d.version)
    {
      hide Valid, Linked, GameOk, ClientOk, Occupied, Refusal, Lists, Audience;
      hide Refused, Created, Entered, Dropped, SameSeats, Posted, NothingDone;
      match request {
        case ClientInfo(version) =>
          SetVersion(c, version);
        case GameList =>
          SendGameList(c);
        case CreateGame(cookie, name, password, difficulty) =>
          HandleCreate(c, cookie, name, password, difficulty, seed);
        case JoinGame(cookie, name, password) =>
          HandleJoin(c, cookie, name, password);
        case LeaveGame =>
          HandleLeave(c);
        case DropPlayer(id, reason) =>
          HandleDrop(c, id, reason);
        case Message(id, payload) =>
          HandleMessage(c, id, payload);
        case Turn(turn) =>
          HandleTurn(c, turn);
        case Malformed =>
          Close(c);
      }
    }

    method SetVersion(c: Client, version: int)
      modifies c`version
      ensures c.version == version && NothingDone()
    {
      c.version := version;
    }

    method Close(c: Client)
      modifies c`open
      ensures !c.open && NothingDone()
    {
      c.open := false;
    }

    method SendGameList(c: Client)
      requires Valid() && c in clients
      modifies c`outbox
      ensures Valid()
      ensures if c.game == null
              then SameSeats() && exists list :: Lists(list, c.version) && Posted(map[c := [Games(list)]])
              else NothingDone()
    {
      if c.game == null {
        var list := GetGameList(c.version);
        c.Send(Games(list));
        assert Lists(list, c.version);
      }
    }
  }
}
