/** Connections, their database rows and the messages published about them. */
module Connections {
  import opened Options
  import opened Topics
  import opened Ipv4
  import opened IpText

  datatype Tag = VlessTcpReality | VlessGrpcReality | VlessXhttpReality | Vmess
               | Shadowsocks | Wireguard | Hysteria2 | Mtproto

  datatype WgParam = WgParam(privkey: string, address: IpAddrMask)

  datatype Proto = WgProto(param: WgParam) | SsProto(password: string) | Xray(tag: Tag)
                 | H2Proto(token: Uuid) | MtProto(secret: string)

  /** Clock readings, in microseconds since the epoch. */
  type Time = nat

  datatype Conn = Conn(env: Env, proto: Proto, subscriptionId: Option<Uuid>, createdAt: Time, modifiedAt: Time,
                       expiresAt: Option<int>, isDeleted: bool)

  function TagOf(p: Proto): Tag {
    match p
    case WgProto(_) => Wireguard
    case SsProto(_) => Shadowsocks
    case H2Proto(_) => Hysteria2
    case Xray(tag) => tag
    case MtProto(_) => Mtproto
  }

  function Password(p: Proto): Option<string> {
    if p.SsProto? then Some(p.password) else None
  }

  function Token(p: Proto): Option<Uuid> {
    if p.H2Proto? then Some(p.token) else None
  }

  function Wg(p: Proto): Option<WgParam> {
    if p.WgProto? then Some(p.param) else None
  }

  predicate XrayTag(t: Tag) {
    t == VlessTcpReality || t == VlessGrpcReality || t == VlessXhttpReality || t == Vmess
  }

  // ----- rows -----

  /** A row of the connections table; the id is the key of the table. */
  datatype ConnRow = ConnRow(password: Option<string>, env: string, createdAt: Time, modifiedAt: Time,
                             expiresAt: Option<int>, subscriptionId: Option<Uuid>, wgPrivkey: Option<string>,
                             wgAddress: Option<string>, proto: Tag, token: Option<Uuid>, isDeleted: bool)

  function ToRow(c: Conn): ConnRow {
    ConnRow(Password(c.proto), PrintEnv(c.env), c.createdAt, c.modifiedAt, c.expiresAt, c.subscriptionId,
            if c.proto.WgProto? then Some(c.proto.param.privkey) else None,
            if c.proto.WgProto? then Some(PrintMask(c.proto.param.address)) else None,
            TagOf(c.proto), Token(c.proto), c.isDeleted)
  }

  /** The stored WireGuard columns, present only when both are and the address reads back. */
  function RowWg(r: ConnRow): Option<WgParam> {
    match (r.wgPrivkey, r.wgAddress)
    case (Some(privkey), Some(address)) =>
      (match ParseMask(address)
       case Some(m) => Some(WgParam(privkey, m))
       case None => None)
    case _ => None
  }

  function RowProto(r: ConnRow): Option<Proto> {
    match r.proto
    case Wireguard => if RowWg(r).Some? then Some(WgProto(RowWg(r).value)) else None
    case Shadowsocks => if r.password.Some? then Some(SsProto(r.password.value)) else None
    case Hysteria2 => if r.token.Some? then Some(H2Proto(r.token.value)) else None
    case tag => Some(Xray(tag))
  }

  function FromRow(r: ConnRow): Option<Conn> {
    match RowProto(r)
    case None => None
    case Some(p) =>
      Some(Conn(EnvFromText(r.env), p, r.subscriptionId, r.createdAt, r.modifiedAt, r.expiresAt, r.isDeleted))
  }

  /** Protocols whose row can be read back: an Xray value carries no tag that has columns of its own. */
  predicate StorableProto(p: Proto) {
    match p
    case WgProto(param) => param.address.cidr <= 32
    case Xray(tag) => XrayTag(tag) || tag == Mtproto
    case _ => true
  }

  predicate Storable(c: Conn) {
    LowerEnv(c.env) && StorableProto(c.proto)
  }

  /** What a stored connection becomes: an Mtproto secret has no column. */
  function Stored(c: Conn): Conn {
    if c.proto.MtProto? then c.(proto := Xray(Mtproto)) else c
  }

  lemma RowReads(c: Conn)
    ensures FromRow(ToRow(c)) == Some(Stored(c)) <==> Storable(c)
  {
    EnvRoundTrip(c.env);
    if c.proto.WgProto? {
      MaskRoundTrip(c.proto.param.address);
    }
  }

  /** What a connection comes back as from the table: without its Mtproto secret, its environment name in lower case. */
  function AsRead(c: Conn): Conn {
    Stored(c).(env := LoweredEnv(c.env))
  }

  /** Every connection with a storable protocol comes back so, whatever its environment name. */
  lemma RowReadsAs(c: Conn)
    ensures FromRow(ToRow(c)) == if StorableProto(c.proto) then Some(AsRead(c)) else None
  {
    EnvLowered(c.env);
    if c.proto.WgProto? {
      MaskRoundTrip(c.proto.param.address);
    }
  }

  /** Which rows can be read, and as what: the columns of the protocol are present and spell its value, the other fields
      are those of the row. */
  lemma RowExact(r: ConnRow, c: Conn)
    ensures FromRow(r) == Some(c) <==>
            && StorableProto(c.proto) && !c.proto.MtProto? && r.proto == TagOf(c.proto)
            && (c.proto.SsProto? ==> r.password == Some(c.proto.password))
            && (c.proto.H2Proto? ==> r.token == Some(c.proto.token))
            && (c.proto.WgProto? ==> r.wgPrivkey == Some(c.proto.param.privkey) && r.wgAddress.Some?
                                     && ParseMask(r.wgAddress.value) == Some(c.proto.param.address))
            && c.env == EnvFromText(r.env) && c.subscriptionId == r.subscriptionId && c.createdAt == r.createdAt
            && c.modifiedAt == r.modifiedAt && c.expiresAt == r.expiresAt && c.isDeleted == r.isDeleted
  {
    ProtoExact(r, c.proto);
  }

  lemma ProtoExact(r: ConnRow, p: Proto)
    ensures RowProto(r) == Some(p) <==>
            && StorableProto(p) && !p.MtProto? && r.proto == TagOf(p)
            && (p.SsProto? ==> r.password == Some(p.password)) && (p.H2Proto? ==> r.token == Some(p.token))
            && (p.WgProto? ==> r.wgPrivkey == Some(p.param.privkey) && r.wgAddress.Some?
                               && ParseMask(r.wgAddress.value) == Some(p.param.address))
  {
    if p.WgProto? && r.wgAddress.Some? {
      MaskExact(r.wgAddress.value, p.param.address);
    }
  }

  /** What has been read once reads the same again. */
  lemma ReadIsStable(r: ConnRow)
    requires FromRow(r).Some?
    ensures AsRead(FromRow(r).value) == FromRow(r).value && StorableProto(FromRow(r).value.proto)
  {
    ReadEnvIsLower(r.env);
    LoweredIsLower(EnvFromText(r.env));
  }

  /** A connection survives the table unchanged exactly when its environment name is lower case, its protocol is
      storable, and it is not an Mtproto connection. */
  lemma RowRoundTrip(c: Conn)
    ensures FromRow(ToRow(c)) == Some(c) <==> Storable(c) && !c.proto.MtProto?
  {
    RowReads(c);
    EnvRoundTrip(c.env);
    if c.proto.WgProto? {
      MaskRoundTrip(c.proto.param.address);
    }
  }

  /** Rows that reading and writing again leaves alone. */
  predicate RowOk(r: ConnRow) {
    FromRow(r).Some? && ToRow(FromRow(r).value) == r
  }

  lemma RowOkExact(c: Conn)
    ensures RowOk(ToRow(c)) <==> Storable(c)
  {
    RowReads(c);
    EnvLowered(c.env);
    if c.proto.WgProto? {
      MaskRoundTrip(c.proto.param.address);
    }
    if RowOk(ToRow(c)) && !LowerEnv(c.env) {
      var e := FromRow(ToRow(c)).value.env;
      EnvRoundTrip(c.env);
      PrintEnvInjective(e, c.env);
    }
  }

  lemma RowOkFrame(r: ConnRow, deleted: bool)
    requires RowOk(r)
    ensures RowOk(r.(isDeleted := deleted))
  {
  }

  // ----- messages -----

  datatype Action = Create | Update | Delete | ResetStat

  datatype Message = Message(connId: Uuid, action: Action, tag: Tag, wg: Option<WgParam>, password: Option<string>,
                             token: Option<Uuid>, expiresAt: Option<int>, subscriptionId: Option<Uuid>)

  function MessageFor(action: Action, id: Uuid, c: Conn): Message {
    Message(id, action, TagOf(c.proto), Wg(c.proto), Password(c.proto), Token(c.proto), c.expiresAt, c.subscriptionId)
  }

  /** Deletions and restorations go to Auth for token connections, otherwise to the environment. */
  function TopicFor(c: Conn): Topic {
    if Token(c.proto).Some? then Auth else Updates(c.env)
  }

  /** Creations likewise, except that an Mtproto creation is not announced. */
  function CreateTopic(c: Conn): Option<Topic> {
    if c.proto.MtProto? then None else Some(TopicFor(c))
  }

  /** What a replica keeps of a connection. */
  datatype Base = Base(proto: Proto, expiresAt: Option<int>, subscriptionId: Option<Uuid>)

  function BaseOf(c: Conn): Base {
    Base(c.proto, c.expiresAt, c.subscriptionId)
  }
}
