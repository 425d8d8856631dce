/** The replicas' message handlers as objects: the auth service's loop over a batch, and the node's handling of one
    message, proved to have the effects of Replicas and Nodes. */
module ReplicaServices {
  import opened Options
  import opened Topics
  import opened Ipv4
  import opened Connections
  import opened Replicas
  import opened Nodes
  import opened SnapshotSync
  import opened ConnectionHandler

  class AuthService {
    var memory: map<Uuid, Base>
    const self: Uuid

    constructor (self: Uuid)
      ensures this.self == self && memory == map[]
    {
      this.self := self;
      memory := map[];
    }

    /** Add the token connections of Create and Update messages, keep what is there, remove what is deleted. */
    method HandleMessagesBatch(messages: seq<Message>, ghost keys: KeyPair)
      modifies this`memory
      ensures memory == BatchEffect(AuthReplica(self), keys, old(memory), messages)
    {
      var i := 0;
      while i < |messages|
        invariant 0 <= i <= |messages|
        invariant BatchEffect(AuthReplica(self), keys, memory, messages[i..]) ==
                  BatchEffect(AuthReplica(self), keys, old(memory), messages)
      {
        var msg := messages[i];
        assert messages[i..][1..] == messages[i + 1..];
        match msg.action {
          case Create => AddToken(msg);
          case Update => AddToken(msg);
          case Delete => memory := memory - {msg.connId};
          case ResetStat =>
        }
        i := i + 1;
      }
    }

    method AddToken(msg: Message)
      modifies this`memory
      ensures memory == if msg.token.Some? && msg.connId !in old(memory)
                        then old(memory)[msg.connId := Record(msg, H2Proto(msg.token.value))]
                        else old(memory)
    {
      if msg.token.Some? {
        var conn := Record(msg, H2Proto(msg.token.value));
        if msg.connId !in memory {
          memory := memory[msg.connId := conn];
        }
      }
    }

    /** Start again: load the snapshot file if there is one, ask the API for what changed since, and handle the reply.
        What the memory then holds is said by SnapshotSync.RestartedExact. */
    method Restart(file: Option<Snapshot>, api: map<Uuid, Conn>, env: Env, ghost keys: KeyPair)
      returns (ghost order: seq<Uuid>)
      modifies this`memory
      ensures IsReply(api, Hysteria2, env, if file.Some? then Some(file.value.timestamp) else None, order)
      ensures memory == Restarted(self, keys, if file.Some? then file.value.memory else old(memory), api, order)
    {
      var since := None;
      if file.Some? {
        memory := file.value.memory;
        since := Some(file.value.timestamp);
      }
      var messages := GetConnections(api, Hysteria2, env, since);
      order := ConnIds(messages);
      HandleMessagesBatch(messages, keys);
    }
  }

  class NodeService {
    var memory: map<Uuid, Base>
    var users: map<(Tag, Uuid), Option<string>>
    var peers: map<string, IpAddrMask>
    const config: NodeConfig
    const keys: KeyPair

    constructor (config: NodeConfig, keys: KeyPair)
      ensures this.config == config && this.keys == keys && View() == NodeState(map[], map[], map[])
    {
      this.config, this.keys := config, keys;
      memory, users, peers := map[], map[], map[];
    }

    function View(): NodeState
      reads this
    {
      NodeState(memory, users, peers)
    }

    method MemoryAdd(id: Uuid, base: Base)
      modifies this`memory
      ensures memory == if id in old(memory) then old(memory) else old(memory)[id := base]
    {
      if id !in memory {
        memory := memory[id := base];
      }
    }

    /** Xray refuses a user that it already has. */
    method XrayCreate(id: Uuid, tag: Tag, password: Option<string>) returns (ok: bool)
      modifies this`users
      ensures ok <==> (tag, id) !in old(users)
      ensures users == if ok then old(users)[(tag, id) := password] else old(users)
    {
      ok := (tag, id) !in users;
      if ok {
        users := users[(tag, id) := password];
      }
    }

    method AddWireguard(msg: Message) returns (ok: bool)
      requires config.wireguard && msg.tag == Wireguard
      modifies this`memory, this`peers
      ensures (View(), ok) == Exec(old(View()), AddProgram(config, keys, msg))
    {
      ExecRefuse(View());
      if msg.wg.None? {
        return false;
      }
      var wg := msg.wg.value;
      var conn := Record(msg, WgProto(wg));
      ghost var n := View();
      MemoryAdd(msg.connId, conn);
      if !config.wgClient {
        ExecTwo(n, MemAdd(msg.connId, conn), Refuse);
        return false;
      }
      var pubkey := keys(wg.privkey);
      if pubkey.Some? {
        ExecTwo(n, MemAdd(msg.connId, conn), PeerAdd(pubkey.value, wg.address));
        if pubkey.value in peers {
          return false;
        }
        peers := peers[pubkey.value := wg.address];
      }
      ok := true;
    }

    method AddXray(msg: Message) returns (ok: bool)
      requires config.xray && (XrayTag(msg.tag) || msg.tag == Shadowsocks)
      modifies this`memory, this`users
      ensures (View(), ok) == Exec(old(View()), AddProgram(config, keys, msg))
    {
      ExecRefuse(View());
      if msg.tag == Shadowsocks && msg.password.None? {
        return false;
      }
      var password := if msg.tag == Shadowsocks then msg.password else None;
      var conn := Record(msg, if msg.tag == Shadowsocks then SsProto(msg.password.value) else Xray(msg.tag));
      if !config.xrayClient {
        return false;
      }
      ExecTwo(View(), UserAdd(msg.tag, msg.connId, password), MemAdd(msg.connId, conn));
      var created := XrayCreate(msg.connId, msg.tag, password);
      if !created {
        return false;
      }
      MemoryAdd(msg.connId, conn);
      ok := true;
    }

    method Remove(msg: Message) returns (ok: bool)
      modifies this
      ensures (View(), ok) == Exec(old(View()), RemoveProgram(config, keys, msg))
    {
      ExecRefuse(View());
      if msg.tag == Wireguard && config.wireguard {
        if !config.wgClient || msg.wg.None? {
          return false;
        }
        var pubkey := keys(msg.wg.value.privkey);
        if pubkey.None? {
          return false;
        }
        ExecTwo(View(), PeerRemove(pubkey.value), MemRemove(msg.connId));
        peers := peers - {pubkey.value};
      } else if (XrayTag(msg.tag) || msg.tag == Shadowsocks) && config.xray {
        if !config.xrayClient || (msg.tag == Shadowsocks && msg.password.None?) {
          return false;
        }
        ExecTwo(View(), UserRemove(msg.tag, msg.connId), MemRemove(msg.connId));
        users := users - {(msg.tag, msg.connId)};
      } else {
        return false;
      }
      memory := memory - {msg.connId};
      ok := true;
    }

    /** One message: its program, run up to its end or its first refusal. */
    method HandleMessage(msg: Message) returns (ok: bool)
      modifies this
      ensures (View(), ok) == Exec(old(View()), Program(config, keys, msg))
    {
      match msg.action {
        case Delete => ok := Remove(msg);
        case ResetStat => ok := true;
        case _ =>
          if msg.tag == Wireguard && config.wireguard {
            ok := AddWireguard(msg);
          } else if (XrayTag(msg.tag) || msg.tag == Shadowsocks) && config.xray {
            ok := AddXray(msg);
          } else {
            ExecRefuse(View());
            ok := false;
          }
      }
    }
  }
}
