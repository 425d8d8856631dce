/** Environments, topics and UUIDs as text, and which published topics a replica acts on. */
module Topics {
  import opened Options
  import opened Text

  datatype Env = Production | Experimental | Dev | Ru | Wl | Custom(name: string)

  type Nibbles = s: seq<nat> | |s| == 32 && forall i :: 0 <= i < 32 ==> s[i] < 16
    witness seq(32, i => 0)

  /** A UUID by its 32 hexadecimal digits. */
  datatype Uuid = Uuid(nibbles: Nibbles)

  datatype Topic = Auth | Metrics | Updates(env: Env) | Init(id: Uuid)

  // ----- printing -----

  function PrintEnv(e: Env): string {
    match e
    case Dev => "dev"
    case Ru => "ru"
    case Wl => "wl"
    case Experimental => "experimental"
    case Production => "production"
    case Custom(name) => "custom" + name
  }

  function HexChar(n: nat): char
    requires n < 16
  {
    if n < 10 then ('0' as int + n) as char else ('a' as int + n - 10) as char
  }

  function Hex(ns: seq<nat>): (s: string)
    requires forall i :: 0 <= i < |ns| ==> ns[i] < 16
    ensures |s| == |ns|
  {
    seq(|ns|, i requires 0 <= i < |ns| => HexChar(ns[i]))
  }

  function PrintUuid(u: Uuid): (s: string)
    ensures |s| == 36
  {
    var h := Hex(u.nibbles);
    h[..8] + "-" + h[8..12] + "-" + h[12..16] + "-" + h[16..20] + "-" + h[20..]
  }

  function Print(t: Topic): string {
    match t
    case Auth => "auth"
    case Metrics => "metrics"
    case Updates(env) => "updates-" + PrintEnv(env)
    case Init(id) => "init-" + PrintUuid(id)
  }

  // ----- parsing -----

  function ParseEnv(s: string): Option<Env> {
    var l := Lower(s);
    if l == "experimental" || l == "exp" then Some(Experimental)
    else if l == "development" || l == "dev" then Some(Dev)
    else if l == "production" || l == "prod" then Some(Production)
    else if l == "ru" then Some(Ru)
    else if l == "wl" then Some(Wl)
    else if "custom" <= l then Some(Custom(l[6..]))
    else None
  }

  /** The lossy conversion used for stored rows: an unreadable name becomes Experimental. */
  function EnvFromText(s: string): Env {
    match ParseEnv(s)
    case Some(e) => e
    case None => Experimental
  }

  function HexVal(c: char): Option<nat> {
    if '0' <= c <= '9' then Some(c as int - '0' as int)
    else if 'a' <= c <= 'f' then Some(c as int - 'a' as int + 10)
    else if 'A' <= c <= 'F' then Some(c as int - 'A' as int + 10)
    else None
  }

  function ParseHex(s: string): (r: Option<Uuid>) {
    if |s| == 32 && forall i :: 0 <= i < |s| ==> HexVal(s[i]).Some? && HexVal(s[i]).value < 16 then
      Some(Uuid(seq(32, i requires 0 <= i < 32 => HexVal(s[i]).value)))
    else None
  }

  /** The plain and the hyphenated form; a printed topic holds the latter. */
  function ParseUuid(s: string): Option<Uuid> {
    if |s| == 36 && s[8] == '-' && s[13] == '-' && s[18] == '-' && s[23] == '-' then
      ParseHex(s[..8] + s[9..13] + s[14..18] + s[19..23] + s[24..])
    else
      ParseHex(s)
  }

  function Parse(text: string): Option<Topic> {
    var s := Lower(text);
    if s == "auth" then Some(Auth)
    else if s == "metrics" then Some(Metrics)
    else if "updates-" <= s then
      match ParseEnv(s[8..])
      case Some(env) => Some(Updates(env))
      case None => None
    else if "init-" <= s then
      match ParseUuid(s[5..])
      case Some(id) => Some(Init(id))
      case None => None
    else None
  }

  // ----- round trips -----

  predicate LowerEnv(e: Env) {
    e.Custom? ==> IsLower(e.name)
  }

  function LoweredEnv(e: Env): Env {
    if e.Custom? then Custom(Lower(e.name)) else e
  }

  lemma LoweredIsLower(e: Env)
    ensures LowerEnv(LoweredEnv(e)) && (LoweredEnv(e) == e <==> LowerEnv(e))
  {
    if e.Custom? {
      LowerIdempotent(e.name);
      LowerFixesLower(e.name);
    }
  }

  /** Whatever text an environment is read from, its name comes out lower case. */
  lemma ReadEnvIsLower(s: string)
    ensures LowerEnv(EnvFromText(s))
  {
    var l := Lower(s);
    LowerIdempotent(s);
    if "custom" <= l {
      forall i | 0 <= i < |l[6..]|
        ensures LowerChar(l[6..][i]) == l[6..][i]
      {
        assert l[6..][i] == l[i + 6];
      }
    }
  }

  /** Parsing a printed environment gives the lower-cased environment back. */
  lemma EnvLowered(e: Env)
    ensures ParseEnv(PrintEnv(e)) == Some(LoweredEnv(e))
  {
    if e.Custom? {
      LowerConcat("custom", e.name);
      var l := Lower(PrintEnv(e));
      LowerFixesLower("custom");
      assert l == "custom" + Lower(e.name);
      assert l[0] == 'c' && l[6..] == Lower(e.name);
    } else {
      LowerFixesLower(PrintEnv(e));
    }
  }

  lemma EnvRoundTrip(e: Env)
    ensures ParseEnv(PrintEnv(e)) == Some(e) <==> LowerEnv(e)
    ensures EnvFromText(PrintEnv(e)) == e <==> LowerEnv(e)
  {
    EnvLowered(e);
    if e.Custom? {
      LowerFixesLower(e.name);
    }
  }

  lemma PrintEnvInjective(a: Env, b: Env)
    requires PrintEnv(a) == PrintEnv(b)
    ensures a == b
  {
    var pa, pb := PrintEnv(a), PrintEnv(b);
    assert a.Custom? ==> pa[0] == 'c' && pa[6..] == a.name;
    assert b.Custom? ==> pb[0] == 'c' && pb[6..] == b.name;
  }

  lemma HexLower(ns: seq<nat>)
    requires forall i :: 0 <= i < |ns| ==> ns[i] < 16
    ensures IsLower(Hex(ns))
    ensures forall i :: 0 <= i < |ns| ==> HexVal(Hex(ns)[i]) == Some(ns[i])
  {
  }

  lemma UuidRoundTrip(u: Uuid)
    ensures ParseUuid(PrintUuid(u)) == Some(u)
    ensures IsLower(PrintUuid(u))
  {
    var h, s := Hex(u.nibbles), PrintUuid(u);
    HexLower(u.nibbles);
    assert s[..8] + s[9..13] + s[14..18] + s[19..23] + s[24..] == h by {
      assert s[..8] == h[..8] && s[9..13] == h[8..12] && s[14..18] == h[12..16];
      assert s[19..23] == h[16..20] && s[24..] == h[20..];
    }
    assert ParseHex(h) == Some(u) by {
      assert seq(32, i requires 0 <= i < 32 => HexVal(h[i]).value) == u.nibbles;
    }
    assert IsLower(s) by {
      forall i | 0 <= i < 36
        ensures LowerChar(s[i]) == s[i]
      {
        assert s[i] == '-' || s[i] in h;
      }
    }
  }

  lemma ParseUpdates(e: string)
    ensures Parse("updates-" + e) == match ParseEnv(e) case Some(env) => Some(Updates(env)) case None => None
  {
    LowerConcat("updates-", e);
    LowerFixesLower("updates-");
    var l := Lower("updates-" + e);
    assert l == "updates-" + Lower(e);
    assert l[0] == 'u' && l[8..] == Lower(e);
    LowerIdempotent(e);
  }

  lemma UpdatesLowered(env: Env)
    ensures Parse(Print(Updates(env))) == Some(Updates(if env.Custom? then Custom(Lower(env.name)) else env))
  {
    ParseUpdates(PrintEnv(env));
    EnvLowered(env);
  }

  lemma InitRoundTrip(id: Uuid)
    ensures Parse(Print(Init(id))) == Some(Init(id))
  {
    var u := PrintUuid(id);
    UuidRoundTrip(id);
    LowerConcat("init-", u);
    LowerFixesLower("init-" + u);
    var s := Print(Init(id));
    assert s[0] == 'i' && s[5..] == u;
  }

  /** Parsing undoes printing exactly for the topics whose environment name is lower case. */
  lemma TopicRoundTrip(t: Topic)
    ensures Parse(Print(t)) == Some(t) <==> (t.Updates? ==> LowerEnv(t.env))
    ensures t.Updates? ==> Parse(Print(t)) == Some(Updates(if t.env.Custom? then Custom(Lower(t.env.name)) else t.env))
  {
    match t {
      case Auth => LowerFixesLower("auth");
      case Metrics => LowerFixesLower("metrics");
      case Updates(env) =>
        UpdatesLowered(env);
        if env.Custom? {
          LowerFixesLower(env.name);
        }
      case Init(id) => InitRoundTrip(id);
    }
  }

  // ----- exactly which texts are accepted -----

  /** The spellings of an environment, in any case: its printed form, or one of three aliases. */
  predicate Spells(s: string, e: Env) {
    || (LowerEnv(e) && Lower(s) == PrintEnv(e))
    || (e == Experimental && Lower(s) == "exp")
    || (e == Production && Lower(s) == "prod")
    || (e == Dev && Lower(s) == "development")
  }

  lemma CustomSpelled(s: string, e: Env)
    requires "custom" <= Lower(s)
    ensures Spells(s, e) <==> e == Custom(Lower(s)[6..])
  {
    var l := Lower(s);
    LowerIdempotent(s);
    assert l == "custom" + l[6..] && l[0] == 'c';
    if e.Custom? {
      assert PrintEnv(e)[6..] == e.name;
    }
    forall i | 0 <= i < |l[6..]|
      ensures LowerChar(l[6..][i]) == l[6..][i]
    {
      assert l[6..][i] == l[i + 6];
    }
  }

  lemma EnvExact(s: string, e: Env)
    ensures ParseEnv(s) == Some(e) <==> Spells(s, e)
  {
    var l := Lower(s);
    if "custom" <= l {
      CustomSpelled(s, e);
      assert l[0] == 'c';
    } else if e.Custom? {
      assert "custom" <= PrintEnv(e);
    }
  }

  /** A text that spells no environment is stored and read as the experimental one. */
  lemma EnvDefault(s: string, e: Env)
    ensures EnvFromText(s) == e <==> Spells(s, e) || (e == Experimental && forall f :: !Spells(s, f))
  {
    EnvExact(s, e);
    EnvExact(s, Experimental);
    if ParseEnv(s).Some? {
      EnvExact(s, ParseEnv(s).value);
    } else {
      forall f
        ensures !Spells(s, f)
      {
        EnvExact(s, f);
      }
    }
  }

  lemma HexDigits(s: string, ns: seq<nat>)
    requires forall i :: 0 <= i < |ns| ==> ns[i] < 16
    ensures |s| == |ns| && (forall i :: 0 <= i < |s| ==> HexVal(s[i]) == Some(ns[i])) <==> Lower(s) == Hex(ns)
  {
    if Lower(s) == Hex(ns) {
      forall i | 0 <= i < |s|
        ensures |s| == |ns| && HexVal(s[i]) == Some(ns[i])
      {
        assert |Lower(s)| == |Hex(ns)|;
        assert LowerChar(s[i]) == Lower(s)[i] == Hex(ns)[i] == HexChar(ns[i]);
      }
    }
  }

  lemma HexExact(s: string, u: Uuid)
    ensures ParseHex(s) == Some(u) <==> Lower(s) == Hex(u.nibbles)
  {
    HexDigits(s, u.nibbles);
    if ParseHex(s) == Some(u) {
      forall i | 0 <= i < 32
        ensures HexVal(s[i]) == Some(u.nibbles[i])
      {
        assert u.nibbles[i] == HexVal(s[i]).value;
      }
    }
    if Lower(s) == Hex(u.nibbles) {
      assert seq(32, i requires 0 <= i < 32 => HexVal(s[i]).value) == u.nibbles;
    }
  }

  lemma Hyphenated(s: string, u: Uuid)
    requires |s| == 36
    ensures Lower(s) == PrintUuid(u) <==>
            && s[8] == '-' && s[13] == '-' && s[18] == '-' && s[23] == '-'
            && Lower(s[..8] + s[9..13] + s[14..18] + s[19..23] + s[24..]) == Hex(u.nibbles)
  {
    var h, p, l := Hex(u.nibbles), PrintUuid(u), Lower(s);
    var t := s[..8] + s[9..13] + s[14..18] + s[19..23] + s[24..];
    HexLower(u.nibbles);
    assert Lower(t) == l[..8] + l[9..13] + l[14..18] + l[19..23] + l[24..];
    assert h == p[..8] + p[9..13] + p[14..18] + p[19..23] + p[24..] by {
      assert p[..8] == h[..8] && p[9..13] == h[8..12] && p[14..18] == h[12..16];
      assert p[19..23] == h[16..20] && p[24..] == h[20..];
    }
    assert forall c: char :: LowerChar(c) == '-' <==> c == '-';
    assert p[8] == '-' && p[13] == '-' && p[18] == '-' && p[23] == '-';
    assert l[8] == LowerChar(s[8]) && l[13] == LowerChar(s[13]) && l[18] == LowerChar(s[18]);
    assert l[23] == LowerChar(s[23]);
    if Lower(t) == h && s[8] == '-' && s[13] == '-' && s[18] == '-' && s[23] == '-' {
      SameParts(l, p);
    }
  }

  lemma SameParts(l: string, p: string)
    requires |l| == 36 && |p| == 36
    requires l[8] == p[8] && l[13] == p[13] && l[18] == p[18] && l[23] == p[23]
    requires l[..8] + l[9..13] + l[14..18] + l[19..23] + l[24..] == p[..8] + p[9..13] + p[14..18] + p[19..23] + p[24..]
    ensures l == p
  {
    var x := l[..8] + l[9..13] + l[14..18] + l[19..23] + l[24..];
    var y := p[..8] + p[9..13] + p[14..18] + p[19..23] + p[24..];
    forall i | 0 <= i < 36
      ensures l[i] == p[i]
    {
      var j := if i < 8 then i else if i < 13 then i - 1 else if i < 18 then i - 2 else if i < 23 then i - 3 else i - 4;
      if i != 8 && i != 13 && i != 18 && i != 23 {
        assert x[j] == l[i] && y[j] == p[i];
      }
    }
  }

  /** A UUID is read from its plain and from its hyphenated form, in any case. */
  lemma UuidExact(s: string, u: Uuid)
    ensures ParseUuid(s) == Some(u) <==> Lower(s) == Hex(u.nibbles) || Lower(s) == PrintUuid(u)
  {
    if |s| == 36 {
      Hyphenated(s, u);
      if s[8] == '-' && s[13] == '-' && s[18] == '-' && s[23] == '-' {
        HexExact(s[..8] + s[9..13] + s[14..18] + s[19..23] + s[24..], u);
      }
    }
    HexExact(s, u);
  }

  /** The texts that are read as a topic, in any case. */
  ghost predicate SpellsTopic(text: string, t: Topic) {
    match t
    case Auth => Lower(text) == "auth"
    case Metrics => Lower(text) == "metrics"
    case Updates(env) => exists s :: Lower(text) == "updates-" + s && Spells(s, env)
    case Init(id) => Lower(text) == "init-" + PrintUuid(id) || Lower(text) == "init-" + Hex(id.nibbles)
  }

  lemma UpdatesSpelled(text: string, env: Env)
    requires "updates-" <= Lower(text)
    ensures SpellsTopic(text, Updates(env)) <==> Spells(Lower(text)[8..], env)
  {
    var l := Lower(text);
    assert l == "updates-" + l[8..];
    if s :| l == "updates-" + s && Spells(s, env) {
      assert s == l[8..];
    }
  }

  lemma InitSpelled(text: string, id: Uuid)
    requires "init-" <= Lower(text)
    ensures SpellsTopic(text, Init(id)) <==> ParseUuid(Lower(text)[5..]) == Some(id)
  {
    var l := Lower(text);
    assert l == "init-" + l[5..];
    LowerIdempotent(text);
    assert Lower(l[5..]) == l[5..];
    UuidExact(l[5..], id);
    assert ("init-" + PrintUuid(id))[5..] == PrintUuid(id) && ("init-" + Hex(id.nibbles))[5..] == Hex(id.nibbles);
  }

  lemma TopicExact(text: string, t: Topic)
    ensures Parse(text) == Some(t) <==> SpellsTopic(text, t)
  {
    var l := Lower(text);
    if "updates-" <= l {
      assert l[0] == 'u';
      if t.Updates? {
        UpdatesSpelled(text, t.env);
        EnvExact(l[8..], t.env);
      }
    } else if "init-" <= l {
      assert l[0] == 'i';
      if t.Init? {
        InitSpelled(text, t.id);
      }
    } else if t.Updates? {
      forall s
        ensures "updates-" <= "updates-" + s
      {
      }
    }
  }

  // ----- delivery -----

  /** A SUB socket passes on every message whose topic text extends a subscribed text. */
  predicate Delivered(subscriptions: seq<Topic>, text: string) {
    exists i :: 0 <= i < |subscriptions| && Print(subscriptions[i]) <= text
  }

  predicate NodeAccepts(self: Uuid, env: Env, t: Topic) {
    match t
    case Auth => false
    case Metrics => false
    case Init(id) => id == self
    case Updates(e) => e == env
  }

  predicate AuthAccepts(self: Uuid, t: Topic) {
    match t
    case Auth => true
    case Metrics => false
    case Updates(_) => false
    case Init(id) => id == self
  }

  predicate NodeHandles(self: Uuid, env: Env, text: string) {
    Delivered([Init(self), Updates(env)], text) &&
    Parse(text).Some? && NodeAccepts(self, env, Parse(text).value)
  }

  predicate AuthHandles(self: Uuid, text: string) {
    Delivered([Init(self), Auth], text) &&
    Parse(text).Some? && AuthAccepts(self, Parse(text).value)
  }

  lemma DeliveredBy(subscriptions: seq<Topic>, i: nat, text: string)
    requires i < |subscriptions| && Print(subscriptions[i]) <= text
    ensures Delivered(subscriptions, text)
  {
  }

  lemma PrefixCancels(p: string, a: string, b: string)
    requires p + a <= p + b
    ensures a <= b
  {
    assert a == (p + a)[|p|..];
    assert b == (p + b)[|p|..];
  }

  /** A topic that could only be mistaken by case never reaches the node: prefixes compare exactly. */
  lemma CaseTwinNotDelivered(self: Uuid, env: Env, name: string)
    requires env == Custom(Lower(name)) && Lower(name) != name
    ensures !Delivered([Init(self), Updates(env)], Print(Updates(Custom(name))))
  {
    var text := Print(Updates(Custom(name)));
    assert text[0] == 'u' && Print(Init(self))[0] == 'i';
    if Print(Updates(env)) <= text {
      PrefixCancels("updates-", PrintEnv(env), PrintEnv(Custom(name)));
      PrefixCancels("custom", Lower(name), name);
      assert false;
    }
  }

  /** Over prefix subscriptions a node acts on exactly its own Init and its own environment's Updates;
      the latter reach it only when its environment name is lower case. */
  lemma NodeDeliveryExact(self: Uuid, env: Env, t: Topic)
    ensures NodeHandles(self, env, Print(t)) <==>
            t == Init(self) || (t == Updates(env) && LowerEnv(env))
  {
    TopicRoundTrip(t);
    var subs := [Init(self), Updates(env)];
    if t == Init(self) {
      DeliveredBy(subs, 0, Print(t));
    }
    if t == Updates(env) {
      DeliveredBy(subs, 1, Print(t));
      if env.Custom? {
        LowerFixesLower(env.name);
      }
    }
    if t.Updates? && t.env != env && t.env.Custom? && env == Custom(Lower(t.env.name)) {
      CaseTwinNotDelivered(self, env, t.env.name);
    }
  }

  /** Auth acts on exactly the Auth topic and its own Init. */
  lemma AuthDeliveryExact(self: Uuid, t: Topic)
    ensures AuthHandles(self, Print(t)) <==> t == Auth || t == Init(self)
  {
    TopicRoundTrip(t);
    var subs := [Init(self), Auth];
    if t == Init(self) {
      DeliveredBy(subs, 0, Print(t));
    }
    if t == Auth {
      DeliveredBy(subs, 1, Print(t));
    }
  }

  /** The prefix match alone is too weak: another environment's updates do reach the socket. */
  lemma PrefixOverDelivers(self: Uuid)
    ensures Delivered([Init(self), Updates(Custom("a"))], Print(Updates(Custom("ab"))))
    ensures !NodeHandles(self, Custom("a"), Print(Updates(Custom("ab"))))
  {
    var subs := [Init(self), Updates(Custom("a"))];
    var text := Print(Updates(Custom("ab")));
    assert text == Print(subs[1]) + "b";
    DeliveredBy(subs, 1, text);
    NodeDeliveryExact(self, Custom("a"), Updates(Custom("ab")));
  }
}
