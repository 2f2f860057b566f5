// Reading the inbounds of an Xray configuration. An inbound that another one
// falls back to is offered once more for each such parent, under a tag made of
// both names.
module XrayFallback {
  import opened Options
  import opened Iteration
  import opened CommaText

  type Tag = string

  // A JSON value as far as comparisons of ports, listeners and destinations go.
  datatype Json = Null | Number(value: int) | Text(text: string)

  datatype Stream = Stream(security: Option<string>, tlsSettings: string, others: string)

  // An inbound; absent keys are None, an empty stream counts as absent.
  datatype Inbound = Inbound(tag: Option<Tag>, protocol: string, listen: Option<Json>, port: Option<Json>,
                             fallbackDests: seq<Option<Json>>, stream: Option<Stream>)

  datatype Error = MissingTag | NoInbounds | NoOutbounds | BadTag | NoPort | NoFallbackPort | BadSettings

  datatype Settings = Settings(source: Inbound, isFallback: bool, fallbacks: seq<Inbound>)

  // The checks of protocol, transport and certificates, before and after the
  // fallbacks of an inbound are read.
  datatype Checks = Checks(early: Inbound -> bool, late: Inbound -> bool)

  const PROTOCOLS := {"vmess", "vless", "trojan", "shadowsocks", "hysteria"}

  // ---- Tags ----

  predicate SeparatorAt(tag: Tag, i: int) {
    0 <= i && i + 3 <= |tag| && tag[i] == '<' && tag[i+1] == '=' && tag[i+2] == '>'
  }

  predicate HasSeparator(tag: Tag) {
    exists i :: 0 <= i < |tag| && SeparatorAt(tag, i)
  }

  predicate ValidTag(tag: Option<Tag>) {
    tag.Some? && tag.value != "" && ',' !in tag.value && !HasSeparator(tag.value)
  }

  function FallbackTag(child: Tag, parent: Tag): Tag {
    child + "<=>" + parent
  }

  // Nothing before the end of the child's tag looks like the separator, even
  // where the two meet.
  lemma SeparatorComesFirst(child: Tag, parent: Tag)
    requires !HasSeparator(child)
    ensures SeparatorAt(FallbackTag(child, parent), |child|)
    ensures forall i :: 0 <= i < |child| ==> !SeparatorAt(FallbackTag(child, parent), i)
  {
    var tag := FallbackTag(child, parent);
    assert tag[|child|] == '<' && tag[|child|+1] == '=' && tag[|child|+2] == '>';
    forall i | 0 <= i < |child| ensures !SeparatorAt(tag, i) {
      assert tag[i] == child[i];
      if i + 3 <= |child| {
        assert tag[i+1] == child[i+1] && tag[i+2] == child[i+2];
        assert !SeparatorAt(child, i);
      }
    }
  }

  // A generated tag names its child and its parent, and nothing else.
  lemma FallbackTagDecodes(child: Tag, parent: Tag, otherChild: Tag, otherParent: Tag)
    requires !HasSeparator(child) && !HasSeparator(otherChild)
    requires FallbackTag(child, parent) == FallbackTag(otherChild, otherParent)
    ensures child == otherChild && parent == otherParent
  {
    var tag := FallbackTag(child, parent);
    SeparatorComesFirst(child, parent);
    SeparatorComesFirst(otherChild, otherParent);
    assert |child| == |otherChild|;
    assert child == tag[..|child|] == otherChild;
    assert parent == tag[|child| + 3..] == otherParent;
  }

  lemma FallbackTagIsNew(child: Tag, parent: Tag, configured: Option<Tag>)
    requires ValidTag(Some(child)) && ValidTag(Some(parent)) && ValidTag(configured)
    ensures HasSeparator(FallbackTag(child, parent)) && Some(FallbackTag(child, parent)) != configured
    ensures Clean(FallbackTag(child, parent))
  {
    SeparatorComesFirst(child, parent);
    assert SeparatorAt(FallbackTag(child, parent), |child|);
  }

  // ---- Matching ----

  // A missing destination reads as "", a missing listener as null and a missing
  // port as 0.
  predicate DestMatches(dest: Option<Json>, inbound: Inbound) {
    var d := if dest.Some? then dest.value else Text("");
    || d == (if inbound.listen.Some? then inbound.listen.value else Null)
    || d == (if inbound.port.Some? then inbound.port.value else Number(0))
  }

  predicate AnyMatches(dests: seq<Option<Json>>, inbound: Inbound) {
    exists d :: d in dests && DestMatches(d, inbound)
  }

  predicate FallsBackTo(parent: Inbound, inbound: Inbound) {
    AnyMatches(parent.fallbackDests, inbound)
  }

  predicate IsUnixSocket(inbound: Inbound) {
    && inbound.listen.Some? && inbound.listen.value.Text?
    && var l := inbound.listen.value.text; l != "" && (l[0] == '/' || l[0] == '@')
  }

  function MakeFallbackInbound(child: Inbound, parent: Inbound): Inbound
    requires child.tag.Some? && child.stream.Some? && parent.tag.Some?
  {
    var security := if parent.stream.Some? then parent.stream.value.security else None;
    var tls := if parent.stream.Some? then parent.stream.value.tlsSettings else "";
    child.(tag := Some(FallbackTag(child.tag.value, parent.tag.value)), port := parent.port,
           stream := Some(child.stream.value.(security := security, tlsSettings := tls)))
  }

  // The destination is the listener or the port, by kind of destination: an absent
  // one is the empty text, null is also an absent listener and 0 an absent port.
  predicate PointsAt(dest: Option<Json>, inbound: Inbound) {
    match dest
    case None => inbound.listen == Some(Text("")) || inbound.port == Some(Text(""))
    case Some(Null) => inbound.listen == None || inbound.listen == Some(Null) || inbound.port == Some(Null)
    case Some(Number(n)) =>
      inbound.listen == Some(Number(n)) || inbound.port == Some(Number(n)) || (n == 0 && inbound.port == None)
    case Some(Text(s)) => inbound.listen == Some(Text(s)) || inbound.port == Some(Text(s))
  }

  lemma PointsAtIff(dest: Option<Json>, inbound: Inbound)
    ensures DestMatches(dest, inbound) <==> PointsAt(dest, inbound)
  {
  }

  // A path, or an abstract socket.
  ghost predicate ListensOnSocket(inbound: Inbound) {
    exists rest: string :: inbound.listen == Some(Text("/" + rest)) || inbound.listen == Some(Text("@" + rest))
  }

  lemma ListensOnSocketIff(inbound: Inbound)
    ensures IsUnixSocket(inbound) <==> ListensOnSocket(inbound)
  {
    if IsUnixSocket(inbound) {
      var l := inbound.listen.value.text;
      assert l == [l[0]] + l[1..];
    }
    if ListensOnSocket(inbound) {
      var rest :| inbound.listen == Some(Text("/" + rest)) || inbound.listen == Some(Text("@" + rest));
      assert inbound.listen.value.text[0] in "/@";
    }
  }

  // The text stands somewhere in the tag.
  ghost predicate Occurs(text: string, tag: Tag) {
    exists before, after :: tag == before + text + after
  }

  lemma SeparatorOccursIff(tag: Tag)
    ensures HasSeparator(tag) <==> Occurs("<=>", tag)
  {
    if HasSeparator(tag) {
      var i :| 0 <= i < |tag| && SeparatorAt(tag, i);
      assert tag[i..i+3] == "<=>";
      assert tag == tag[..i] + "<=>" + tag[i+3..];
    }
    if Occurs("<=>", tag) {
      var before, after :| tag == before + "<=>" + after;
      assert tag[|before|] == '<' && tag[|before|+1] == '=' && tag[|before|+2] == '>';
      assert SeparatorAt(tag, |before|);
    }
  }

  // What is read for a child beside one of its parents: the parent's port and
  // security, everything else of the child.
  predicate MadeFor(child: Inbound, parent: Inbound, g: Inbound) {
    && child.tag.Some? && parent.tag.Some? && child.stream.Some? && g.stream.Some?
    && g.tag == Some(child.tag.value + "<=>" + parent.tag.value)
    && g.protocol == child.protocol && g.listen == child.listen && g.fallbackDests == child.fallbackDests
    && g.stream.value.others == child.stream.value.others
    && SecuredAs(g, parent)
  }

  predicate SecuredAs(g: Inbound, parent: Inbound) {
    && g.port.Some? && g.port == parent.port && g.stream.Some?
    && match parent.stream {
      case None => g.stream.value.security == None && g.stream.value.tlsSettings == ""
      case Some(Stream(security, tlsSettings, _)) =>
        g.stream.value.security == security && g.stream.value.tlsSettings == tlsSettings
    }
  }

  lemma FallbackIsMade(child: Inbound, parent: Inbound)
    requires child.tag.Some? && child.stream.Some? && parent.tag.Some? && parent.port.Some?
    ensures MadeFor(child, parent, MakeFallbackInbound(child, parent))
  {
  }

  // ---- The configuration ----

  datatype Config = Config(inbounds: seq<Inbound>, outboundTags: seq<Option<Tag>>, exclude: set<Tag>,
                           explicitFallbacks: set<Tag>)

  // Tags to leave out: those asked for, and the explicit fallback parents.
  function Excluded(c: Config): set<Tag> {
    c.exclude + c.explicitFallbacks
  }

  // The first inbound with a tag.
  ghost predicate FirstWithTag(c: Config, p: Inbound, tag: Tag) {
    exists i :: 0 <= i < |c.inbounds| && c.inbounds[i] == p && p.tag == Some(tag) &&
      forall j :: 0 <= j < i ==> c.inbounds[j].tag != Some(tag)
  }

  predicate DeclaredBy(c: Config, tag: Tag, n: nat) requires n <= |c.inbounds| {
    exists i :: 0 <= i < n && c.inbounds[i].tag == Some(tag) && c.inbounds[i].fallbackDests != []
  }

  predicate DeclaresFallbacks(c: Config, tag: Tag) {
    DeclaredBy(c, tag, |c.inbounds|)
  }

  // A fallback parent: chosen explicitly, or named by an inbound that declares
  // fallbacks; in either case the first inbound of that tag.
  ghost predicate Parent(c: Config, p: Inbound) {
    exists tag :: tag != "" && FirstWithTag(c, p, tag) && (tag in c.explicitFallbacks || DeclaresFallbacks(c, tag))
  }

  predicate Eligible(c: Config, inbound: Inbound) {
    inbound.protocol in PROTOCOLS && inbound.tag.Some? && inbound.tag.value !in Excluded(c)
  }

  predicate ServesUsers(c: Config) {
    exists i :: 0 <= i < |c.inbounds| && Eligible(c, c.inbounds[i])
  }

  // A child and one of its parents.
  ghost predicate Pair(c: Config, child: Inbound, parent: Inbound) {
    && child in c.inbounds && Eligible(c, child) && child.fallbackDests == [] && child.stream.Some?
    && Parent(c, parent) && FallsBackTo(parent, child)
  }

  ghost predicate Generated(c: Config, child: Inbound, parent: Inbound, g: Inbound) {
    && Pair(c, child, parent) && parent.tag.Some? && parent.port.Some? && Eligible(c, g)
    && g == MakeFallbackInbound(child, parent)
  }

  // The tags a configuration offers, without reading it step by step.
  ghost predicate Offered(c: Config, tag: Tag) {
    || (exists i :: 0 <= i < |c.inbounds| && c.inbounds[i].tag == Some(tag) && Eligible(c, c.inbounds[i]))
    || (exists child, parent, g :: Generated(c, child, parent, g) && g.tag == Some(tag))
  }

  // The inbound an entry was read from.
  ghost predicate Origin(c: Config, g: Inbound) {
    g in c.inbounds || exists child, parent :: Generated(c, child, parent, g)
  }

  predicate WellTagged(c: Config) {
    forall i :: 0 <= i < |c.inbounds| ==> ValidTag(c.inbounds[i].tag)
  }

  class XrayConfig {
    const config: Config
    const checks: Checks
    var fallbacksInbound: seq<Inbound>
    var inbounds: seq<Tag>
    var inboundsByTag: map<Tag, Settings>

    constructor (config: Config, checks: Checks)
      ensures this.config == config && this.checks == checks
      ensures fallbacksInbound == [] && inbounds == [] && inboundsByTag == map[]
    {
      this.config, this.checks := config, checks;
      fallbacksInbound, inbounds, inboundsByTag := [], [], map[];
    }

    ghost predicate Collected() reads this {
      forall p :: p in fallbacksInbound <==> Parent(config, p)
    }

    // The list and the table name the same tags, each once.
    ghost predicate Listed() reads this {
      && (forall t :: t in inbounds <==> t in inboundsByTag)
      && (forall i, j :: 0 <= i < j < |inbounds| ==> inbounds[i] != inbounds[j])
    }

    // Every entry comes from an eligible inbound of that tag and passed its checks.
    ghost predicate Entry(tag: Tag) reads this requires tag in inboundsByTag {
      var g := inboundsByTag[tag].source;
      g.tag == Some(tag) && Eligible(config, g) && Origin(config, g) && checks.early(g) && checks.late(g)
    }

    method GetInbound(tag: Tag) returns (r: Result<Option<Inbound>, Error>)
      ensures r.Err? ==> exists i :: 0 <= i < |config.inbounds| && config.inbounds[i].tag.None?
      ensures r.Ok? && r.value.Some? ==> FirstWithTag(config, r.value.value, tag)
      ensures r.Ok? && r.value.None? ==> forall i :: 0 <= i < |config.inbounds| ==> config.inbounds[i].tag != Some(tag)
    {
      for i := 0 to |config.inbounds|
        invariant forall j :: 0 <= j < i ==> config.inbounds[j].tag != Some(tag)
      {
        if config.inbounds[i].tag.None? {
          return Err(MissingTag);
        }
        if config.inbounds[i].tag == Some(tag) {
          return Ok(Some(config.inbounds[i]));
        }
      }
      return Ok(None);
    }

    method CollectFallbackInbounds() returns (r: Result<bool, Error>)
      requires fallbacksInbound == []
      modifies this`fallbacksInbound
      ensures r.Ok? ==> Collected()
      ensures r.Err? ==> exists i :: 0 <= i < |config.inbounds| && config.inbounds[i].tag.None?
    {
      var tags := config.explicitFallbacks;
      for i := 0 to |config.inbounds|
        invariant forall t :: t != "" ==> (t in tags <==> t in config.explicitFallbacks || DeclaredBy(config, t, i))
      {
        if config.inbounds[i].fallbackDests != [] {
          tags := tags + {if config.inbounds[i].tag.Some? then config.inbounds[i].tag.value else ""};
        }
      }
      var order := IterationOrder(tags);
      for i := 0 to |order|
        invariant forall p :: p in fallbacksInbound <==> exists k ::
                  0 <= k < i && order[k] != "" && FirstWithTag(config, p, order[k])
      {
        if order[i] != "" {
          var found := GetInbound(order[i]);
          if found.Err? {
            return Err(found.error);
          }
          if found.value.Some? {
            FirstIsUnique(config, order[i], found.value.value);
            fallbacksInbound := fallbacksInbound + [found.value.value];
          }
        }
      }
      forall p ensures p in fallbacksInbound <==> Parent(config, p) {
        if Parent(config, p) {
          var tag :| tag != "" && FirstWithTag(config, p, tag) &&
            (tag in config.explicitFallbacks || DeclaresFallbacks(config, tag));
          assert tag in order;
        }
        if p in fallbacksInbound {
          var k :| 0 <= k < |order| && order[k] != "" && FirstWithTag(config, p, order[k]);
          assert order[k] in tags;
        }
      }
      return Ok(true);
    }

    method Validate() returns (r: Result<bool, Error>)
      ensures r.Ok? <==> ValidConfig(config)
      ensures r.Ok? <==>
                && config.inbounds != [] && config.outboundTags != []
                && (forall i :: i in config.inbounds ==> GoodTag(i.tag))
                && forall t :: t in config.outboundTags ==> t.Some? && t.value != ""
    {
      ValidConfigIff(config);
      if config.inbounds == [] {
        return Err(NoInbounds);
      }
      if config.outboundTags == [] {
        return Err(NoOutbounds);
      }
      for i := 0 to |config.inbounds|
        invariant forall j :: 0 <= j < i ==> ValidTag(config.inbounds[j].tag)
      {
        if !ValidTag(config.inbounds[i].tag) {
          return Err(BadTag);
        }
      }
      for i := 0 to |config.outboundTags|
        invariant forall j :: 0 <= j < i ==> config.outboundTags[j] != None && config.outboundTags[j] != Some("")
      {
        if config.outboundTags[i] == None || config.outboundTags[i] == Some("") {
          return Err(BadTag);
        }
      }
      return Ok(true);
    }

    // The parents of an inbound, one for each of their matching destinations.
    method FindFallbackInbound(inbound: Inbound) returns (parents: seq<Inbound>)
      ensures forall p :: p in parents <==> p in fallbacksInbound && FallsBackTo(p, inbound)
      ensures forall p :: p in parents <==>
                p in fallbacksInbound && exists d :: d in p.fallbackDests && PointsAt(d, inbound)
    {
      forall p ensures FallsBackTo(p, inbound) <==> exists d :: d in p.fallbackDests && PointsAt(d, inbound) {
        assert forall d :: DestMatches(d, inbound) <==> PointsAt(d, inbound);
      }
      parents := [];
      for i := 0 to |fallbacksInbound|
        invariant forall p :: p in parents <==> p in fallbacksInbound[..i] && FallsBackTo(p, inbound)
      {
        var fallback := fallbacksInbound[i];
        for k := 0 to |fallback.fallbackDests|
          invariant forall p :: p in parents <==>
                      (p in fallbacksInbound[..i] && FallsBackTo(p, inbound)) ||
                        (p == fallback && AnyMatches(fallback.fallbackDests[..k], inbound))
        {
          if DestMatches(fallback.fallbackDests[k], inbound) {
            parents := parents + [fallback];
          }
        }
      }
    }

    // Whether the inbound is read as a child of its parents.
    ghost predicate IsChild(inbound: Inbound) reads this requires inbound.tag.Some? {
      && fallbacksInbound != [] && !HasSeparator(inbound.tag.value)
      && inbound.fallbackDests == []
      && exists p :: p in fallbacksInbound && FallsBackTo(p, inbound)
    }

    method HandlePortSettings(inbound: Inbound) returns (r: Result<Settings, Error>)
      requires inbound.tag.Some?
      ensures r.Err? <==> inbound.port.None? && !IsUnixSocket(inbound) && !IsChild(inbound)
      ensures r.Err? <==> inbound.port.None? && !ListensOnSocket(inbound) && !IsChild(inbound)
      ensures r.Ok? ==> r.value.source == inbound && (r.value.isFallback <==> IsChild(inbound))
      ensures r.Ok? && r.value.isFallback ==> forall p ::
                p in r.value.fallbacks <==> p in fallbacksInbound && FallsBackTo(p, inbound)
    {
      ListensOnSocketIff(inbound);
      if fallbacksInbound != [] && !HasSeparator(inbound.tag.value) {
        if inbound.fallbackDests != [] {
          if inbound.port.None? && !IsUnixSocket(inbound) {
            return Err(NoPort);
          }
          return Ok(Settings(inbound, false, []));
        }
        var fallbacks := FindFallbackInbound(inbound);
        if fallbacks != [] {
          assert fallbacks[0] in fallbacks;
          return Ok(Settings(inbound, true, fallbacks));
        }
      }
      if inbound.port.None? && !IsUnixSocket(inbound) {
        return Err(NoPort);
      }
      return Ok(Settings(inbound, false, []));
    }

    // ---- Reading one inbound ----

    ghost predicate Entries() reads this {
      Listed() && forall t :: t in inboundsByTag ==> Entry(t)
    }

    // What may be read: a configured inbound, or a child made over for a parent.
    ghost predicate Readable(g: Inbound) {
      || (g in config.inbounds && ValidTag(g.tag))
      || (exists child, parent :: Remade(config, child, parent, g))
    }

    // Why reading an inbound fails.
    ghost predicate Broken(g: Inbound) reads this {
      Eligible(config, g) &&
      (|| (g.port.None? && !IsUnixSocket(g) && !IsChild(g))
       || !checks.early(g)
       || !checks.late(g)
       || (g.stream.Some? && IsChild(g) && exists p :: p in fallbacksInbound && FallsBackTo(p, g) && p.port.None?))
    }

    // Every tag this inbound is to be offered under.
    ghost predicate Covered(table: map<Tag, Settings>, inbound: Inbound) {
      && (Eligible(config, inbound) ==> inbound.tag.value in table)
      && (forall parent, g :: Generated(config, inbound, parent, g) ==> g.tag.value in table)
    }

    lemma ReadableOrigin(g: Inbound)
      requires Readable(g) && Eligible(config, g)
      ensures Origin(config, g)
    {
      if child, parent :| Remade(config, child, parent, g) {
        assert Generated(config, child, parent, g);
      }
    }

    // Only a child with a stream is made over.
    lemma OnlyChildrenRemade(inbound: Inbound)
      requires WellTagged(config) && Collected() && Readable(inbound) && inbound.tag.Some?
      requires !IsChild(inbound) || inbound.stream.None?
      ensures forall parent, g :: !Generated(config, inbound, parent, g)
    {
      assert forall parent, g :: Generated(config, inbound, parent, g) ==> Parent(config, parent);
    }

    method AddInbound(tag: Tag, settings: Settings)
      requires Entries() && settings.source.tag == Some(tag)
      requires Eligible(config, settings.source) && Origin(config, settings.source)
      requires checks.early(settings.source) && checks.late(settings.source)
      modifies this`inbounds, this`inboundsByTag
      ensures Entries() && tag in inboundsByTag && Extends(old(inboundsByTag), inboundsByTag)
    {
      if tag !in inbounds {
        inbounds := inbounds + [tag];
        inboundsByTag := inboundsByTag[tag := settings];
        forall t | t in inboundsByTag ensures Entry(t) {
          if t != tag {
            assert old(Entry(t));
          }
        }
      }
    }

    method ReadInbound(inbound: Inbound) returns (r: Result<bool, Error>)
      requires WellTagged(config) && Collected() && Entries() && Readable(inbound) && inbound.tag.Some?
      modifies this`inbounds, this`inboundsByTag
      ensures Entries() && Extends(old(inboundsByTag), inboundsByTag)
      ensures r.Ok? ==> Covered(inboundsByTag, inbound) && !Broken(inbound)
      ensures r.Err? ==> exists g :: Readable(g) && Broken(g)
      decreases if HasSeparator(inbound.tag.value) then 0 else 1, 2
    {
      if !Eligible(config, inbound) {
        return Ok(true);
      }
      var tag := inbound.tag.value;
      ReadableOrigin(inbound);
      var settings := HandlePortSettings(inbound);
      if settings.Err? {
        assert Broken(inbound);
        return Err(settings.error);
      }
      if !checks.early(inbound) {
        assert Broken(inbound);
        return Err(BadSettings);
      }
      if inbound.stream.Some? && settings.value.isFallback {
        r := ReadFallbacks(inbound, settings.value.fallbacks);
        if r.Err? {
          return;
        }
      } else {
        OnlyChildrenRemade(inbound);
      }
      if !checks.late(inbound) {
        assert Broken(inbound);
        return Err(BadSettings);
      }
      AddInbound(tag, settings.value);
      return Ok(true);
    }

    lemma ChildIsConfigured(child: Inbound)
      requires WellTagged(config) && Readable(child) && child.tag.Some? && !HasSeparator(child.tag.value)
      ensures child in config.inbounds && ValidTag(child.tag)
    {
      if c, parent :| Remade(config, c, parent, child) {
        ParentIsTagged(config, parent);
        FallbackTagIsNew(c.tag.value, parent.tag.value, c.tag);
      }
    }

    // An entry under a generated tag was read for that parent, which had a port.
    lemma EntryHasPort(child: Inbound, parent: Inbound)
      requires WellTagged(config) && Entries() && Pair(config, child, parent)
      requires child.tag.Some? && parent.tag.Some? && FallbackTag(child.tag.value, parent.tag.value) in inboundsByTag
      ensures parent.port.Some?
    {
      var tag := FallbackTag(child.tag.value, parent.tag.value);
      var g := inboundsByTag[tag].source;
      assert Entry(tag);
      ParentIsTagged(config, parent);
      if g in config.inbounds {
        FallbackTagIsNew(child.tag.value, parent.tag.value, g.tag);
      } else {
        var c, p :| Generated(config, c, p, g);
        ParentIsTagged(config, p);
        FallbackTagDecodes(child.tag.value, parent.tag.value, c.tag.value, p.tag.value);
        SameTagSameParent(config, p, parent);
      }
    }

    // The parent has a port, and the child is offered under both names unless
    // that tag is excluded.
    ghost predicate Done(table: map<Tag, Settings>, child: Inbound, parent: Inbound) {
      parent.port.Some? && forall g :: Generated(config, child, parent, g) ==> g.tag.value in table
    }

    // Reads a child once more for one of its parents.
    method ReadFallback(child: Inbound, parent: Inbound) returns (r: Result<bool, Error>)
      requires WellTagged(config) && Collected() && Entries() && ValidTag(child.tag) && IsChild(child)
      requires Pair(config, child, parent)
      modifies this`inbounds, this`inboundsByTag
      ensures Entries() && Extends(old(inboundsByTag), inboundsByTag)
      ensures r.Ok? ==> Done(inboundsByTag, child, parent)
      ensures r.Err? ==> exists g :: Readable(g) && Broken(g)
      decreases 1, 0
    {
      ParentIsTagged(config, parent);
      var tag := FallbackTag(child.tag.value, parent.tag.value);
      if tag in inboundsByTag {
        EntryHasPort(child, parent);
        return Ok(true);
      }
      if parent.port.None? {
        assert Readable(child) && Broken(child);
        return Err(NoFallbackPort);
      }
      var g := MakeFallbackInbound(child, parent);
      assert Remade(config, child, parent, g);
      FallbackTagIsNew(child.tag.value, parent.tag.value, child.tag);
      r := ReadInbound(g);
    }

    // Reads a child once more for each of its parents.
    method ReadFallbacks(child: Inbound, parents: seq<Inbound>) returns (r: Result<bool, Error>)
      requires WellTagged(config) && Collected() && Entries() && Readable(child) && child.tag.Some?
      requires Eligible(config, child) && child.stream.Some? && IsChild(child)
      requires forall p :: p in parents <==> p in fallbacksInbound && FallsBackTo(p, child)
      modifies this`inbounds, this`inboundsByTag
      ensures Entries() && Extends(old(inboundsByTag), inboundsByTag)
      ensures r.Ok? ==> forall p :: p in fallbacksInbound && FallsBackTo(p, child) ==> Done(inboundsByTag, child, p)
      ensures r.Err? ==> exists g :: Readable(g) && Broken(g)
      decreases 1, 1
    {
      ChildIsConfigured(child);
      for k := 0 to |parents|
        invariant Entries() && Extends(old(inboundsByTag), inboundsByTag)
        invariant forall p :: p in parents[..k] ==> Done(inboundsByTag, child, p)
      {
        assert parents[k] in parents;
        ghost var before := inboundsByTag;
        r := ReadFallback(child, parents[k]);
        forall p | p in parents[..k] ensures Done(inboundsByTag, child, p) {
          assert Done(before, child, p);
        }
        if r.Err? {
          return;
        }
      }
      assert parents[..|parents|] == parents;
      return Ok(true);
    }

    method ResolveInbounds() returns (r: Result<bool, Error>)
      requires WellTagged(config) && Collected() && Entries()
      modifies this`inbounds, this`inboundsByTag
      ensures Entries()
      ensures r.Ok? ==> forall i ::
                0 <= i < |config.inbounds| ==> Covered(inboundsByTag, config.inbounds[i]) && !Broken(config.inbounds[i])
      ensures r.Err? ==> exists g :: Readable(g) && Broken(g)
    {
      for i := 0 to |config.inbounds|
        invariant Entries()
        invariant forall j :: 0 <= j < i ==> Covered(inboundsByTag, config.inbounds[j]) && !Broken(config.inbounds[j])
      {
        ghost var before := inboundsByTag;
        r := ReadInbound(config.inbounds[i]);
        if r.Err? {
          return;
        }
        forall j | 0 <= j < i ensures Covered(inboundsByTag, config.inbounds[j]) {
          assert Covered(before, config.inbounds[j]);
        }
      }
      return Ok(true);
    }

    // What was read is what is offered.
    lemma TableIsOffered()
      requires WellTagged(config) && Entries()
      requires forall i :: 0 <= i < |config.inbounds| ==> Covered(inboundsByTag, config.inbounds[i])
      ensures forall t :: t in inboundsByTag <==> Offered(config, t)
    {
      forall t ensures t in inboundsByTag <==> Offered(config, t) {
        if t in inboundsByTag {
          EntryIsOffered(t);
        }
        if child, parent, g :| Generated(config, child, parent, g) && g.tag == Some(t) {
          assert child in config.inbounds;
        }
      }
    }

    lemma EntryIsOffered(t: Tag)
      requires t in inboundsByTag && Entry(t)
      ensures Offered(config, t)
    {
      var g := inboundsByTag[t].source;
      if !(g in config.inbounds) {
        var child, parent :| Generated(config, child, parent, g);
      }
    }

    // Only inbounds that serve users, or are made over from one, can be broken.
    lemma NobodyToServe()
      requires !ServesUsers(config)
      ensures forall g :: Readable(g) ==> !Broken(g)
    {
      assert forall inbound :: inbound in config.inbounds ==> !Eligible(config, inbound);
    }

    // Reads the whole configuration.
    method Load(skipValidation: bool) returns (r: Result<bool, Error>)
      requires fallbacksInbound == [] && inbounds == [] && inboundsByTag == map[]
      modifies this
      ensures r.Ok? && skipValidation ==> inbounds == [] && inboundsByTag == map[]
      ensures r.Ok? && !skipValidation ==>
                && ValidConfig(config) && Entries()
                && (forall t :: t in inboundsByTag <==> Offered(config, t))
                && forall i :: 0 <= i < |config.inbounds| ==> !Broken(config.inbounds[i])
      ensures r.Ok? && !skipValidation ==> ReadRight()
      ensures r.Err? ==> !ValidConfig(config) || (!skipValidation && exists g :: Readable(g) && Broken(g))
      ensures ValidConfig(config) && !ServesUsers(config) ==> r.Ok?
    {
      if !ServesUsers(config) {
        NobodyToServe();
      }
      r := CollectFallbackInbounds();
      if r.Err? || skipValidation {
        return;
      }
      r := Validate();
      if r.Err? {
        return;
      }
      r := ResolveInbounds();
      if r.Ok? {
        TableIsOffered();
        OfferedIsRight();
      }
    }

    // What a table holds after reading, by the fields of the configuration: of the
    // configured inbounds those that serve users and are not left out, as they are;
    // the others are children beside a parent.
    ghost predicate ReadRight() reads this {
      && (forall tag :: !Occurs("<=>", tag) ==>
            (tag in inboundsByTag <==> exists i :: i in config.inbounds && i.tag == Some(tag) && ForUsers(i)))
      && (forall tag :: tag in inboundsByTag && !Occurs("<=>", tag) ==> inboundsByTag[tag].source in config.inbounds)
      && (forall tag :: tag in inboundsByTag && Occurs("<=>", tag) ==>
            exists child, parent :: Pair(config, child, parent) && MadeFor(child, parent, inboundsByTag[tag].source))
      && (forall tag, child, parent :: tag in inboundsByTag && Names(config, tag, child, parent) ==>
            SecuredAs(inboundsByTag[tag].source, parent))
      && forall child, parent :: ToBeMade(child, parent) ==> child.tag.value + "<=>" + parent.tag.value in inboundsByTag
    }

    // A configured inbound for users, without fallbacks but with stream settings, at
    // which a parent's destination points; unless their common tag is left out.
    ghost predicate ToBeMade(child: Inbound, parent: Inbound) {
      && child in config.inbounds && ForUsers(child) && child.fallbackDests == [] && child.stream.Some?
      && ParentByTag(parent) && parent.port.Some? && (exists d :: d in parent.fallbackDests && PointsAt(d, child))
      && child.tag.value + "<=>" + parent.tag.value !in config.exclude + config.explicitFallbacks
    }

    // The first inbound of a tag that is named explicitly, or given to an inbound
    // with fallbacks.
    ghost predicate ParentByTag(parent: Inbound) {
      exists k ::
        0 <= k < |config.inbounds| && config.inbounds[k] == parent && parent.tag.Some? && parent.tag.value != "" &&
        (forall j :: 0 <= j < k ==> config.inbounds[j].tag != parent.tag) &&
        (parent.tag.value in config.explicitFallbacks ||
         exists i :: i in config.inbounds && i.tag == parent.tag && i.fallbackDests != [])
    }

    lemma ToBeMadeIsOffered(child: Inbound, parent: Inbound)
      requires ToBeMade(child, parent)
      ensures Offered(config, child.tag.value + "<=>" + parent.tag.value)
    {
      var k :|
        0 <= k < |config.inbounds| && config.inbounds[k] == parent && parent.tag.Some? && parent.tag.value != "" &&
        (forall j :: 0 <= j < k ==> config.inbounds[j].tag != parent.tag) &&
        (parent.tag.value in config.explicitFallbacks ||
         exists i :: i in config.inbounds && i.tag == parent.tag && i.fallbackDests != []);
      assert FirstWithTag(config, parent, parent.tag.value);
      if i :| i in config.inbounds && i.tag == parent.tag && i.fallbackDests != [] {
        assert DeclaresFallbacks(config, parent.tag.value);
      }
      assert Parent(config, parent);
      var d :| d in parent.fallbackDests && PointsAt(d, child);
      assert FallsBackTo(parent, child);
      assert Generated(config, child, parent, MakeFallbackInbound(child, parent));
    }

    predicate ForUsers(inbound: Inbound) {
      && inbound.protocol in {"vmess", "vless", "trojan", "shadowsocks", "hysteria"}
      && inbound.tag.Some? && inbound.tag.value !in config.exclude && inbound.tag.value !in config.explicitFallbacks
    }

    lemma EntryIsRight(tag: Tag)
      requires WellTagged(config) && Entries() && tag in inboundsByTag
      ensures !Occurs("<=>", tag) ==>
                inboundsByTag[tag].source in config.inbounds && ForUsers(inboundsByTag[tag].source)
      ensures Occurs("<=>", tag) ==>
                exists child, parent :: Pair(config, child, parent) && MadeFor(child, parent, inboundsByTag[tag].source)
    {
      var g := inboundsByTag[tag].source;
      assert Entry(tag);
      SeparatorOccursIff(tag);
      if g !in config.inbounds {
        var c, p :| Generated(config, c, p, g);
        MadeEntry(c, p, g, tag);
      }
    }

    lemma MadeEntry(child: Inbound, parent: Inbound, g: Inbound, tag: Tag)
      requires WellTagged(config) && Generated(config, child, parent, g) && g.tag == Some(tag)
      ensures HasSeparator(tag) && MadeFor(child, parent, g)
    {
      ParentIsTagged(config, parent);
      FallbackTagIsNew(child.tag.value, parent.tag.value, child.tag);
      FallbackIsMade(child, parent);
    }

    // Whichever child of that tag the entry was made of, it was for this parent.
    lemma EntryFollowsParent(tag: Tag, child: Inbound, parent: Inbound)
      requires WellTagged(config) && Entries() && tag in inboundsByTag && Names(config, tag, child, parent)
      ensures SecuredAs(inboundsByTag[tag].source, parent)
    {
      var g := inboundsByTag[tag].source;
      assert Entry(tag);
      ParentIsTagged(config, parent);
      if g in config.inbounds {
        FallbackTagIsNew(child.tag.value, parent.tag.value, g.tag);
      } else {
        var c, p :| Generated(config, c, p, g);
        ParentIsTagged(config, p);
        FallbackTagDecodes(child.tag.value, parent.tag.value, c.tag.value, p.tag.value);
        SameTagSameParent(config, p, parent);
        FallbackIsMade(c, p);
      }
    }

    lemma OfferedIsRight()
      requires WellTagged(config) && Entries()
      requires forall t :: t in inboundsByTag <==> Offered(config, t)
      ensures ReadRight()
    {
      forall tag | tag in inboundsByTag {
        EntryIsRight(tag);
      }
      forall tag, child, parent | tag in inboundsByTag && Names(config, tag, child, parent)
        ensures SecuredAs(inboundsByTag[tag].source, parent)
      {
        EntryFollowsParent(tag, child, parent);
      }
      forall child, parent | ToBeMade(child, parent)
        ensures child.tag.value + "<=>" + parent.tag.value in inboundsByTag
      {
        ToBeMadeIsOffered(child, parent);
      }
      forall tag, i | i in config.inbounds && i.tag == Some(tag) && ForUsers(i) ensures tag in inboundsByTag {
        var k :| 0 <= k < |config.inbounds| && config.inbounds[k] == i;
        assert Eligible(config, config.inbounds[k]);
        assert Offered(config, tag);
      }
    }
  }

  predicate ValidConfig(c: Config) {
    && c.inbounds != [] && c.outboundTags != [] && WellTagged(c)
    && forall i :: 0 <= i < |c.outboundTags| ==> c.outboundTags[i] != None && c.outboundTags[i] != Some("")
  }

  ghost predicate GoodTag(tag: Option<Tag>) {
    tag.Some? && tag.value != "" && !Occurs(",", tag.value) && !Occurs("<=>", tag.value)
  }

  lemma GoodTagIff(tag: Option<Tag>)
    ensures ValidTag(tag) <==> GoodTag(tag)
  {
    if tag.Some? {
      SeparatorOccursIff(tag.value);
      if ',' in tag.value {
        var i :| 0 <= i < |tag.value| && tag.value[i] == ',';
        assert tag.value == tag.value[..i] + "," + tag.value[i+1..];
      }
      if before, after :| tag.value == before + "," + after {
        assert tag.value[|before|] == ',';
      }
    }
  }

  lemma ValidConfigIff(c: Config)
    ensures ValidConfig(c) <==>
            && c.inbounds != [] && c.outboundTags != []
            && (forall i :: i in c.inbounds ==> GoodTag(i.tag))
            && forall t :: t in c.outboundTags ==> t.Some? && t.value != ""
  {
    forall i | i in c.inbounds ensures ValidTag(i.tag) <==> GoodTag(i.tag) {
      GoodTagIff(i.tag);
    }
    assert forall k :: 0 <= k < |c.inbounds| ==> c.inbounds[k] in c.inbounds;
    assert forall k :: 0 <= k < |c.outboundTags| ==> c.outboundTags[k] in c.outboundTags;
  }

  // A table that only gained entries.
  ghost predicate Extends(before: map<Tag, Settings>, after: map<Tag, Settings>) {
    forall t :: t in before ==> t in after && after[t] == before[t]
  }

  ghost predicate Names(c: Config, tag: Tag, child: Inbound, parent: Inbound) {
    Pair(c, child, parent) && child.tag.Some? && parent.tag.Some? &&
      tag == FallbackTag(child.tag.value, parent.tag.value)
  }

  ghost predicate OnlyNames(c: Config, tag: Tag, child: Inbound, parent: Inbound) {
    forall other, otherParent :: Names(c, tag, other, otherParent) ==> other.tag == child.tag && otherParent == parent
  }

  // Every offered tag fits the comma-separated columns, and one that holds the
  // separator names exactly one child and one of its parents.
  lemma OfferedTagsAreSound(c: Config, tag: Tag)
    requires WellTagged(c) && Offered(c, tag)
    ensures Clean(tag)
    ensures !HasSeparator(tag) <==> exists i :: 0 <= i < |c.inbounds| && c.inbounds[i].tag == Some(tag)
    ensures HasSeparator(tag) ==> exists child, parent ::
              Names(c, tag, child, parent) && OnlyNames(c, tag, child, parent)
  {
    if child, parent, g :| Generated(c, child, parent, g) && g.tag == Some(tag) {
      ParentIsTagged(c, parent);
      assert ValidTag(child.tag);
      forall i | 0 <= i < |c.inbounds| ensures c.inbounds[i].tag != Some(tag) {
        FallbackTagIsNew(child.tag.value, parent.tag.value, c.inbounds[i].tag);
      }
      FallbackTagIsNew(child.tag.value, parent.tag.value, child.tag);
      assert Names(c, tag, child, parent);
      forall otherChild, otherParent | Names(c, tag, otherChild, otherParent)
        ensures otherChild.tag == child.tag && otherParent == parent
      {
        ParentIsTagged(c, otherParent);
        FallbackTagDecodes(child.tag.value, parent.tag.value, otherChild.tag.value, otherParent.tag.value);
        SameTagSameParent(c, otherParent, parent);
      }
    }
  }

  // A child made over for a parent, excluded or not.
  ghost predicate Remade(c: Config, child: Inbound, parent: Inbound, g: Inbound) {
    Pair(c, child, parent) && parent.tag.Some? && parent.port.Some? && g == MakeFallbackInbound(child, parent)
  }

  lemma SameTagSameParent(c: Config, p: Inbound, q: Inbound)
    requires Parent(c, p) && Parent(c, q) && p.tag == q.tag
    ensures p == q
  {
    var tag :| tag != "" && FirstWithTag(c, p, tag) && (tag in c.explicitFallbacks || DeclaresFallbacks(c, tag));
    FirstIsUnique(c, tag, p);
  }

  lemma ParentIsTagged(c: Config, p: Inbound)
    requires WellTagged(c) && Parent(c, p)
    ensures p in c.inbounds && ValidTag(p.tag)
  {
  }

  lemma FirstIsUnique(c: Config, tag: Tag, p: Inbound)
    requires FirstWithTag(c, p, tag)
    ensures forall q :: FirstWithTag(c, q, tag) ==> q == p
  {
  }
}
