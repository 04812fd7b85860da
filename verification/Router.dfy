/** The outbound compiler (core/outbound/build.go): panel rules become an ordered first-match rule list and a list of
    outbound handlers. JSON syntax and the library's own builders are parameters. */
module Router {
  import opened Optional
  import opened Text

  // ---- Panel configuration ----

  datatype Outbound = Outbound(name: string, protocol: string, settings: string, streamSettings: string,
                               transport: string,
                               security: string, streamFields: seq<string>, rules: seq<string>)

  datatype DnsItem = DnsItem(address: string, domains: seq<string>)

  datatype Config = Config(ipStrategy: string, dns: Option<seq<DnsItem>>, block: Option<seq<string>>,
                           outbounds: Option<seq<Outbound>>)

  /** The stream settings of an outbound: none, the given text, or by name, where an empty network is none. */
  datatype Stream = NoStream | Given(json: string) | Named(network: string, security: string)

  /** What is made of an item for the library to build; the other settings are the item's. */
  datatype Detour = Detour(protocol: string, stream: Stream, item: Outbound)

  /** What the library accepts, and whether the host has IPv6. */
  datatype Library = Library(hasIPv6: bool, jsonValid: string -> bool, streamJsonValid: string -> bool,
                             detourBuilds: Detour -> bool, routerBuilds: seq<Rule> -> bool, dnsBuilds: Dns -> bool)

  datatype Rule = DnsRule(tag: string) | DomainRule(domains: seq<string>, tag: string)

  /** A handler is one of the three built-in ones or made from an item. */
  datatype Handler = Handler(tag: string, detour: Option<Detour>)

  /** A server without a strategy of its own uses that of the whole configuration. */
  datatype DnsServer = DnsServer(address: string, strategy: string, domains: seq<string>)

  datatype Dns = Dns(strategy: string, servers: seq<DnsServer>)

  datatype BuildResult = Failed | Built(dns: Dns, outbounds: seq<Handler>, rules: seq<Rule>)

  const DEFAULT_TAG := "Default"
  const BLOCK_TAG := "block"
  const DNS_TAG := "dns_out"

  // ---- One rule ----

  datatype PanelRule = Keyword(value: string) | Suffix(value: string) | Regex(value: string) | Full(value: string)

  /** What a rule text means; blank rules and rules without a value mean nothing, unknown kinds are keywords. */
  function ReadRule(text: string): Option<PanelRule> {
    var rule := TrimSpace(text);
    if rule == "" then None
    else if ':' !in rule then Some(Full(rule))
    else
      var (kind0, value0) := CutFirst(rule, ':');
      var kind, value := TrimSpace(kind0), TrimSpace(value0);
      if value == "" then None
      else if kind == "suffix" then Some(Suffix(value))
      else if kind == "regex" then Some(Regex(value))
      else Some(Keyword(value))
  }

  function PrintRule(r: PanelRule): string {
    match r
    case Keyword(v) => v
    case Suffix(v) => "domain:" + v
    case Regex(v) => "regexp:" + v
    case Full(v) => "full:" + v
  }

  /** Reading back the prefixes the compiler writes. */
  function ReadPrinted(s: string): PanelRule {
    if "domain:" <= s then Suffix(s[7..])
    else if "regexp:" <= s then Regex(s[7..])
    else if "full:" <= s then Full(s[5..])
    else Keyword(s)
  }

  predicate HasPrintedPrefix(v: string) {
    "domain:" <= v || "regexp:" <= v || "full:" <= v
  }

  /** A compiled rule keeps its kind and value exactly when it is not a keyword that starts with one of the compiler's
      own prefixes. */
  lemma PrintedRuleFaithfulExactly(r: PanelRule)
    ensures ReadPrinted(PrintRule(r)) == r <==> !(r.Keyword? && HasPrintedPrefix(r.value))
  {
    match r {
      case Keyword(v) =>
      case Suffix(v) => assert PrintRule(r)[7..] == v;
      case Regex(v) =>
        assert PrintRule(r)[7..] == v && PrintRule(r)[0] == 'r';
      case Full(v) =>
        assert PrintRule(r)[5..] == v && PrintRule(r)[0] == 'f';
    }
  }

  ghost predicate Trimmed(s: string) {
    s != "" && !IsSpace(s[0]) && !IsSpace(s[|s| - 1])
  }

  /** The text of a rule with an explicit kind is read as that kind. */
  lemma KindIsRead(kind: string, value: string)
    requires Trimmed(kind) && ':' !in kind && Trimmed(value)
    ensures ReadRule(kind + [':'] + value) ==
            Some(if kind == "suffix" then Suffix(value) else if kind == "regex" then Regex(value) else Keyword(value))
  {
    hide TrimSpace; hide CutFirst; hide IsSpace;
    var text := kind + [':'] + value;
    assert text[0] == kind[0] && text[|text| - 1] == value[|value| - 1];
    TrimSpaceKeepsTrimmed(text);
    CutAt(kind, ':', value);
    TrimSpaceKeepsTrimmed(kind);
    TrimSpaceKeepsTrimmed(value);
  }

  /** However a rule is padded: a kind and a value around the first colon, no rule without a value, and a whole name
      without a colon. */
  lemma RuleReadExactly(a: string, kind: string, b: string, c: string, value: string, d: string)
    requires Blanks(a) && Blanks(b) && Blanks(c) && Blanks(d) && ':' !in kind
    requires (kind != "" ==> Trimmed(kind)) && (value != "" ==> Trimmed(value))
    ensures ReadRule(a + kind + b + ":" + c + value + d) ==
            if value == "" then None
            else Some(if kind == "suffix" then Suffix(value) else if kind == "regex" then Regex(value)
                      else Keyword(value))
    ensures ReadRule(a + kind + b) == if kind == "" then None else Some(Full(kind))
  {
    hide TrimSpace; hide CutFirst; hide IsSpace; hide Blanks;
    TrimPadded(a, kind, b);
    PaddedPair(a, kind, b, c, value, d);
  }

  lemma PaddedPair(a: string, kind: string, b: string, c: string, value: string, d: string)
    requires Blanks(a) && Blanks(b) && Blanks(c) && Blanks(d) && ':' !in kind
    requires (kind != "" ==> Trimmed(kind)) && (value != "" ==> Trimmed(value))
    ensures var rule := TrimSpace(a + kind + b + ":" + c + value + d);
            && ':' in rule && TrimSpace(CutFirst(rule, ':').0) == kind && TrimSpace(CutFirst(rule, ':').1) == value
  {
    hide IsSpace; hide TrimSpace; hide CutFirst; hide TrimRight; hide TrimLeft;
    BlanksHaveNoColon(a);
    BlanksHaveNoColon(b);
    hide Blanks; hide Trimmed;
    TrimPadded(a, kind, b);
    PaddedRight(c, value, d);
    PairAround(a + kind + b, c + value + d);
    assert a + kind + b + ":" + c + value + d == (a + kind + b) + [':'] + (c + value + d);
  }

  lemma PairAround(left: string, right: string)
    requires ':' !in left
    ensures var rule := TrimSpace(left + [':'] + right);
            && ':' in rule && TrimSpace(CutFirst(rule, ':').0) == TrimSpace(left)
            && TrimSpace(CutFirst(rule, ':').1) == TrimSpace(TrimRight(right))
  {
    assert !IsSpace(':');
    TrimOver(left, ':', right);
    TrimLeftTwice(left);
    assert TrimSpace(TrimLeft(left)) == TrimSpace(left);
    hide TrimSpace; hide CutFirst; hide IsSpace; hide TrimLeft; hide TrimRight;
    TrimKeepsFree(left, ':');
    CutAt(TrimLeft(left), ':', TrimRight(right));
  }

  lemma BlanksHaveNoColon(a: string)
    requires Blanks(a)
    ensures ':' !in a && !IsSpace(':')
  {
  }

  lemma PaddedRight(c: string, value: string, d: string)
    requires Blanks(c) && Blanks(d) && (value != "" ==> Trimmed(value))
    ensures TrimSpace(TrimRight(c + value + d)) == value
  {
    hide TrimSpace; hide IsSpace; hide TrimLeft; hide TrimRight;
    if value == "" {
      assert c + value + d == "" + (c + d) && Blanks(c + d);
      TrimRightPadded("", c + d);
      TrimPadded("", "", "");
      assert "" + "" + "" == "";
    } else {
      TrimRightPadded(c + value, d);
      TrimPadded(c, value, "");
      assert c + value + "" == c + value;
    }
  }

  /** A keyword that starts with the suffix prefix means something else than the suffix rule but is compiled alike. */
  lemma KeywordReadAsSuffix(value: string)
    requires Trimmed(value)
    ensures ReadRule("keyword" + [':'] + ("domain:" + value)) == Some(Keyword("domain:" + value))
    ensures ReadRule("suffix" + [':'] + value) == Some(Suffix(value))
    ensures PrintRule(Keyword("domain:" + value)) == PrintRule(Suffix(value))
  {
    hide ReadRule;
    var long := "domain:" + value;
    assert long[0] == 'd' && long[|long| - 1] == value[|value| - 1];
    KindIsRead("keyword", long);
    KindIsRead("suffix", value);
  }

  lemma {:induction false} CutAt(before: string, sep: char, after: string)
    requires sep !in before
    ensures sep in before + [sep] + after && CutFirst(before + [sep] + after, sep) == (before, after)
  {
    var s := before + [sep] + after;
    assert s[|before|] == sep;
    if before != "" {
      CutAt(before[1..], sep, after);
      assert s[1..] == before[1..] + [sep] + after;
      assert before == [before[0]] + before[1..];
    }
  }

  // ---- A list of rules ----

  function RouteDomain(text: string): Option<string> {
    var r := ReadRule(text);
    if r.None? then None else Some(PrintRule(r.value))
  }

  /** The compiled rules in order, each at its first occurrence. */
  function RouteDomains(rules: seq<string>): seq<string> {
    if rules == [] then []
    else
      var before, d := RouteDomains(rules[..|rules| - 1]), RouteDomain(rules[|rules| - 1]);
      if d.None? || d.value in before then before else before + [d.value]
  }

  method BuildRouteDomains(rules: seq<string>) returns (domains: seq<string>)
    ensures domains == RouteDomains(rules)
  {
    hide TrimSpace; hide CutFirst;
    domains := [];
    var seen: set<string> := {};
    for i := 0 to |rules|
      invariant domains == RouteDomains(rules[..i])
      invariant forall d :: d in seen <==> d in domains
    {
      assert rules[..i + 1][..i] == rules[..i];
      var rule := TrimSpace(rules[i]);
      if rule == "" {
        continue;
      }
      var value := "";
      if ':' in rule {
        var (kind0, value0) := CutFirst(rule, ':');
        var kind, text := TrimSpace(kind0), TrimSpace(value0);
        if text == "" {
          continue;
        }
        if kind == "suffix" {
          value := "domain:" + text;
        } else if kind == "regex" {
          value := "regexp:" + text;
        } else {
          value := text;
        }
      } else {
        value := "full:" + rule;
      }
      assert RouteDomain(rules[i]) == Some(value);
      if value in seen {
        continue;
      }
      seen := seen + {value};
      domains := domains + [value];
    }
    assert rules[..|rules|] == rules;
  }

  /** Some rule of the list is compiled to d. */
  ghost predicate Meant(rules: seq<string>, d: string) {
    exists r | r in rules :: RouteDomain(r) == Some(d)
  }

  lemma MeantSnoc(rules: seq<string>, last: string, d: string)
    ensures Meant(rules + [last], d) <==> Meant(rules, d) || RouteDomain(last) == Some(d)
  {
    hide RouteDomain;
    if Meant(rules, d) {
      var r :| r in rules && RouteDomain(r) == Some(d);
      assert r in rules + [last];
    }
    if RouteDomain(last) == Some(d) {
      assert last in rules + [last];
    }
  }

  lemma {:induction false} RouteDomainsHold(rules: seq<string>, d: string)
    ensures d in RouteDomains(rules) <==> Meant(rules, d)
  {
    hide RouteDomain; hide Meant;
    if rules != [] {
      var most, last := rules[..|rules| - 1], rules[|rules| - 1];
      RouteDomainsHold(most, d);
      MeantSnoc(most, last, d);
      assert rules == most + [last];
    } else {
      NothingMeant(d);
    }
  }

  lemma NothingMeant(d: string)
    ensures !Meant([], d)
  {
  }

  ghost predicate Distinct(s: seq<string>) {
    forall i, j | 0 <= i < j < |s| :: s[i] != s[j]
  }

  lemma {:induction false} RouteDomainsDistinct(rules: seq<string>)
    ensures Distinct(RouteDomains(rules))
  {
    hide RouteDomain;
    if rules != [] {
      RouteDomainsDistinct(rules[..|rules| - 1]);
    }
  }

  /** Filtering and deduplication lose no meaning: the list holds what the rules mean, once each. */
  lemma RouteDomainsComplete(rules: seq<string>)
    ensures forall d :: d in RouteDomains(rules) <==> Meant(rules, d)
    ensures Distinct(RouteDomains(rules))
  {
    hide RouteDomains; hide Meant; hide Distinct;
    RouteDomainsDistinct(rules);
    forall d ensures d in RouteDomains(rules) <==> Meant(rules, d) {
      RouteDomainsHold(rules, d);
    }
  }

  /** More rules never move or drop what is compiled already, so rules stand in the order they first occur in. */
  lemma {:induction false} RouteDomainsInOrder(rules: seq<string>, more: seq<string>)
    ensures RouteDomains(rules) <= RouteDomains(rules + more)
  {
    if more == [] {
      assert rules + more == rules;
    } else {
      hide RouteDomain;
      RouteDomainsInOrder(rules, more[..|more| - 1]);
      assert (rules + more)[..|rules + more| - 1] == rules + more[..|more| - 1];
    }
  }

  // ---- One item ----

  function NormalizeProtocol(protocol: string): string {
    var p := ToLower(TrimSpace(protocol));
    if p == "direct" then "freedom" else if p == "reject" || p == "block" then "blackhole" else p
  }

  predicate KnownProtocol(p: string) {
    p in {"freedom", "blackhole", "http", "socks", "shadowsocks", "trojan", "vmess", "vless", "anytls", "tuic",
          "hysteria"}
  }

  /** Given settings must be JSON; without any the protocol must be known. */
  predicate SettingsFail(lib: Library, item: Outbound) {
    TrimSpace(item.settings) != "" && !lib.jsonValid(TrimSpace(item.settings))
  }

  predicate SettingsSkip(item: Outbound) {
    if TrimSpace(item.settings) != "" then NormalizeProtocol(item.protocol) == ""
    else !KnownProtocol(NormalizeProtocol(item.protocol))
  }

  function Transport(item: Outbound): string {
    var t, p := ToLower(TrimSpace(item.transport)), NormalizeProtocol(item.protocol);
    if t != "" then t
    else if p in {"vmess", "vless", "trojan", "anytls"} then "tcp"
    else if p == "tuic" then "tuic"
    else if p == "hysteria" then "hysteria"
    else ""
  }

  /** Some stream field is set. */
  predicate HasStreamField(item: Outbound) {
    || Transport(item) != "" || ToLower(TrimSpace(item.security)) != ""
    || exists i | 0 <= i < |item.streamFields| :: TrimSpace(item.streamFields[i]) != ""
  }

  predicate StreamFails(lib: Library, item: Outbound) {
    if TrimSpace(item.streamSettings) != "" then !lib.streamJsonValid(TrimSpace(item.streamSettings))
    else
      && HasStreamField(item)
      && !(ToLower(TrimSpace(item.security)) in {"", "none", "tls", "reality"} &&
           Transport(item) in {"", "tcp", "raw", "ws", "websocket", "grpc", "httpupgrade", "splithttp", "xhttp",
                               "tuic", "hysteria"})
  }

  function StreamOf(item: Outbound): Stream {
    if TrimSpace(item.streamSettings) != "" then Given(TrimSpace(item.streamSettings))
    else if HasStreamField(item) then Named(Transport(item), ToLower(TrimSpace(item.security)))
    else NoStream
  }

  function DetourOf(item: Outbound): Detour {
    Detour(NormalizeProtocol(item.protocol), StreamOf(item), item)
  }

  /** The item ends the build with an error. */
  predicate Fails(lib: Library, item: Outbound) {
    SettingsFail(lib, item) || (!SettingsSkip(item) && StreamFails(lib, item))
  }

  /** The item becomes an outbound. */
  predicate Buildable(lib: Library, item: Outbound) {
    !SettingsFail(lib, item) && !SettingsSkip(item) && !StreamFails(lib, item) && lib.detourBuilds(DetourOf(item))
  }

  // ---- Which items become outbounds, and as what ----

  /** A field as it counts: trimmed and in lower case. */
  ghost function Word(field: string): string {
    ToLower(TrimSpace(field))
  }

  /** Direct is freedom, reject and block are the black hole, any other protocol is itself. */
  ghost predicate StandsForProtocol(word: string, protocol: string) {
    && (word in {"freedom", "direct"} ==> protocol == "freedom")
    && (word in {"blackhole", "reject", "block"} ==> protocol == "blackhole")
    && (word !in {"freedom", "direct", "blackhole", "reject", "block"} ==> protocol == word)
  }

  /** Given stream settings are taken as they are; otherwise the network is the one named or the protocol's own, and
      there are no stream settings if nothing is named at all. */
  ghost predicate StandsForStream(item: Outbound, stream: Stream) {
    var (word, network, security) := (Word(item.protocol), Word(item.transport), Word(item.security));
    if TrimSpace(item.streamSettings) != "" then stream == Given(TrimSpace(item.streamSettings))
    else if network != "" then stream == Named(network, security)
    else
      && (word in {"vmess", "vless", "trojan", "anytls"} ==> stream == Named("tcp", security))
      && (word in {"tuic", "hysteria"} ==> stream == Named(word, security))
      && (word !in {"vmess", "vless", "trojan", "anytls", "tuic", "hysteria"} ==>
            stream == if security == "" && AllBlank(item.streamFields) then NoStream else Named("", security))
  }

  /** The detour that an item stands for. */
  ghost predicate StandsFor(item: Outbound, d: Detour) {
    d.item == item && StandsForProtocol(Word(item.protocol), d.protocol) && StandsForStream(item, d.stream)
  }

  ghost predicate AllBlank(fields: seq<string>) {
    forall i | 0 <= i < |fields| :: TrimSpace(fields[i]) == ""
  }

  /** Something the item says is not valid: settings or stream settings that are not JSON, or, for an item that is not
      left out, a network or a security that the compiler does not know. */
  ghost predicate Broken(lib: Library, item: Outbound) {
    || (TrimSpace(item.settings) != "" && !lib.jsonValid(TrimSpace(item.settings)))
    || (Offers(item) &&
        if TrimSpace(item.streamSettings) != "" then !lib.streamJsonValid(TrimSpace(item.streamSettings))
        else
          || Word(item.security) !in {"", "none", "tls", "reality"}
          || Word(item.transport) !in {"", "tcp", "raw", "ws", "websocket", "grpc", "httpupgrade", "splithttp", "xhttp",
                                       "tuic", "hysteria"})
  }

  /** The item names a protocol the compiler can make settings for, or has settings and names any. */
  ghost predicate Offers(item: Outbound) {
    if TrimSpace(item.settings) != "" then Word(item.protocol) != ""
    else Word(item.protocol) in {"freedom", "direct", "blackhole", "reject", "block", "http", "socks", "shadowsocks",
                                 "trojan", "vmess", "vless", "anytls", "tuic", "hysteria"}
  }

  /** The item is an outbound of the panel's configuration: it offers one, nothing in it is broken, and the library
      builds what it stands for. */
  ghost predicate Usable(lib: Library, item: Outbound) {
    Offers(item) && !Broken(lib, item) && exists d :: StandsFor(item, d) && lib.detourBuilds(d)
  }

  lemma ProtocolExactly(field: string, protocol: string)
    ensures StandsForProtocol(Word(field), protocol) <==> protocol == NormalizeProtocol(field)
  {
    hide ToLower; hide TrimSpace;
  }

  lemma TransportExactly(item: Outbound)
    ensures var word, network := Word(item.protocol), Word(item.transport);
            && (network != "" ==> Transport(item) == network)
            && (network == "" ==>
                  && (word in {"vmess", "vless", "trojan", "anytls"} ==> Transport(item) == "tcp")
                  && (word in {"tuic", "hysteria"} ==> Transport(item) == word)
                  && (word !in {"vmess", "vless", "trojan", "anytls", "tuic", "hysteria"} ==> Transport(item) == ""))
  {
    ProtocolExactly(item.protocol, NormalizeProtocol(item.protocol));
    hide ToLower; hide TrimSpace; hide NormalizeProtocol;
  }

  lemma StreamExactly(item: Outbound, stream: Stream)
    ensures StandsForStream(item, stream) <==> stream == StreamOf(item)
  {
    var word, network, security := Word(item.protocol), Word(item.transport), Word(item.security);
    TransportExactly(item);
    StreamFieldExactly(item);
    hide ToLower; hide TrimSpace; hide Transport; hide HasStreamField; hide AllBlank; hide Word;
    if TrimSpace(item.streamSettings) != "" {
      assert StreamOf(item) == Given(TrimSpace(item.streamSettings));
    } else if network != "" {
      assert StreamOf(item) == Named(network, security);
    } else if word in {"vmess", "vless", "trojan", "anytls"} {
      assert StreamOf(item) == Named("tcp", security);
    } else if word in {"tuic", "hysteria"} {
      assert StreamOf(item) == Named(word, security);
    } else {
      assert Transport(item) == "";
    }
  }

  lemma StreamFieldExactly(item: Outbound)
    ensures HasStreamField(item) <==>
            Transport(item) != "" || Word(item.security) != "" || !AllBlank(item.streamFields)
    ensures Word(item.security) == ToLower(TrimSpace(item.security))
  {
    hide ToLower; hide TrimSpace; hide Transport;
  }

  lemma DetourExactly(item: Outbound, d: Detour)
    ensures StandsFor(item, d) <==> d == DetourOf(item)
  {
    hide StandsForProtocol; hide StandsForStream; hide NormalizeProtocol; hide StreamOf; hide Word;
    ProtocolExactly(item.protocol, d.protocol);
    StreamExactly(item, d.stream);
  }

  lemma StreamFailsExactly(lib: Library, item: Outbound)
    requires Offers(item)
    ensures StreamFails(lib, item) <==>
            if TrimSpace(item.streamSettings) != "" then !lib.streamJsonValid(TrimSpace(item.streamSettings))
            else
              || Word(item.security) !in {"", "none", "tls", "reality"}
              || Word(item.transport) !in {"", "tcp", "raw", "ws", "websocket", "grpc", "httpupgrade", "splithttp",
                                           "xhttp", "tuic", "hysteria"}
  {
    hide ToLower; hide TrimSpace;
  }

  lemma OffersExactly(item: Outbound)
    ensures Offers(item) <==> !SettingsSkip(item)
  {
    hide ToLower; hide TrimSpace;
  }

  /** The compiler skips, fails on and builds exactly the items that offer nothing, are broken and are usable. */
  lemma UsableExactly(lib: Library, item: Outbound)
    ensures Fails(lib, item) <==> Broken(lib, item)
    ensures Buildable(lib, item) <==> Usable(lib, item)
  {
    hide ToLower; hide TrimSpace; hide StandsFor; hide SettingsSkip; hide StreamFails; hide Offers; hide DetourOf;
    OffersExactly(item);
    if Offers(item) {
      StreamFailsExactly(lib, item);
    }
    DetourExactly(item, DetourOf(item));
    forall d | StandsFor(item, d) ensures d == DetourOf(item) {
      DetourExactly(item, d);
    }
  }

  // ---- Name servers ----

  function ServerStrategy(lib: Library, config: Config): string {
    if config.ipStrategy == "prefer_ipv6" then "UseIPv6v4"
    else if config.ipStrategy != "" || lib.hasIPv6 then "UseIPv4v6"
    else "UseIPv4"
  }

  /** A domain of a name server: a kind and a value around exactly one colon, or the whole text. Nothing is trimmed. */
  function DnsDomain(text: string): string {
    var parts := Split(text, ':');
    if |parts| != 2 then "full:" + text
    else if parts[0] == "suffix" then "domain:" + parts[1]
    else if parts[0] == "regex" then "regexp:" + parts[1]
    else parts[1]
  }

  function DnsDomains(domains: seq<string>): seq<string> {
    seq(|domains|, i requires 0 <= i < |domains| => DnsDomain(domains[i]))
  }

  function DnsServers(strategy: string, items: seq<DnsItem>): seq<DnsServer> {
    seq(|items|, i requires 0 <= i < |items| => DnsServer(items[i].address, strategy, DnsDomains(items[i].domains)))
  }

  /** The local resolver comes first. */
  function CompiledDns(lib: Library, config: Config): Dns {
    Dns(if lib.hasIPv6 then "UseIPv4v6" else "UseIPv4",
        [DnsServer("localhost", "", [])] +
        if config.dns.Some? then DnsServers(ServerStrategy(lib, config), config.dns.value) else [])
  }

  method BuildDns(lib: Library, config: Config) returns (dns: Dns)
    ensures dns == CompiledDns(lib, config)
  {
    hide DnsDomain;
    var strategy := ServerStrategy(lib, config);
    var servers := [DnsServer("localhost", "", [])];
    if config.dns.Some? {
      var items := config.dns.value;
      for i := 0 to |items|
        invariant servers == [DnsServer("localhost", "", [])] + DnsServers(strategy, items[..i])
      {
        var domains: seq<string> := [];
        for j := 0 to |items[i].domains|
          invariant domains == DnsDomains(items[i].domains[..j])
        {
          domains := domains + [DnsDomain(items[i].domains[j])];
        }
        assert items[i].domains[..|items[i].domains|] == items[i].domains;
        assert DnsServers(strategy, items[..i + 1]) ==
               DnsServers(strategy, items[..i]) + [DnsServer(items[i].address, strategy, domains)];
        servers := servers + [DnsServer(items[i].address, strategy, domains)];
      }
      assert items[..|items|] == items;
    }
    dns := Dns(if lib.hasIPv6 then "UseIPv4v6" else "UseIPv4", servers);
  }

  /** What a name server's text is compiled to: a kind and a value around the only colon, or the whole text. */
  ghost predicate DnsReads(text: string, d: string) {
    && (forall kind: string, value: string | ':' !in kind && ':' !in value && text == kind + ":" + value ::
          d == (if kind == "suffix" then "domain:" else if kind == "regex" then "regexp:" else "") + value)
    && ((forall kind: string, value: string | ':' !in kind && ':' !in value :: text != kind + ":" + value) ==>
          d == "full:" + text)
  }

  lemma DnsDomainReads(text: string)
    ensures DnsReads(text, DnsDomain(text))
  {
    hide Split;
    forall kind: string, value: string | ':' !in kind && ':' !in value && text == kind + ":" + value
      ensures Split(text, ':') == [kind, value]
    {
      SplitAtFirstSeparator(kind, ':', value);
      SplitWhole(value, ':');
    }
    if |Split(text, ':')| == 2 {
      TwoParts(text);
      assert text == Split(text, ':')[0] + ":" + Split(text, ':')[1];
    }
  }

  /** The strategy of configured servers by the panel's word and the host; words that mean nothing prefer IPv4. */
  ghost predicate StrategyOf(word: string, hasIPv6: bool, strategy: string) {
    && (word == "prefer_ipv6" ==> strategy == "UseIPv6v4")
    && (word !in {"", "prefer_ipv6"} ==> strategy == "UseIPv4v6")
    && (word == "" && hasIPv6 ==> strategy == "UseIPv4v6")
    && (word == "" && !hasIPv6 ==> strategy == "UseIPv4")
  }

  /** The server has the item's address, and each of its domains read by itself, in order. */
  ghost predicate ServerOf(item: DnsItem, server: DnsServer) {
    && server.address == item.address && |server.domains| == |item.domains|
    && forall j | 0 <= j < |item.domains| :: DnsReads(item.domains[j], server.domains[j])
  }

  lemma StrategyExactly(lib: Library, config: Config)
    ensures StrategyOf(config.ipStrategy, lib.hasIPv6, ServerStrategy(lib, config))
    ensures StrategyOf("", lib.hasIPv6, CompiledDns(lib, config).strategy)
  {
    hide DnsServers;
  }

  /** Name servers come out as configured, after the local resolver: one for each, in order, with its address and the
      common strategy, each of its domains read on its own. */
  lemma DnsServersExactly(lib: Library, config: Config)
    ensures var dns := CompiledDns(lib, config);
            var items := if config.dns.Some? then config.dns.value else [];
            && StrategyOf("", lib.hasIPv6, dns.strategy)
            && |dns.servers| == 1 + |items| && dns.servers[0] == DnsServer("localhost", "", [])
            && forall i | 0 <= i < |items| ::
                 && ServerOf(items[i], dns.servers[i + 1])
                 && StrategyOf(config.ipStrategy, lib.hasIPv6, dns.servers[i + 1].strategy)
  {
    StrategyExactly(lib, config);
    hide DnsDomain; hide StrategyOf; hide ServerStrategy; hide ServerOf; hide DnsDomains;
    if config.dns.Some? {
      var items := config.dns.value;
      forall i | 0 <= i < |items|
        ensures ServerOf(items[i], CompiledDns(lib, config).servers[i + 1])
      {
        ServerExactly(items[i], ServerStrategy(lib, config));
      }
    }
  }

  lemma ServerExactly(item: DnsItem, strategy: string)
    ensures ServerOf(item, DnsServer(item.address, strategy, DnsDomains(item.domains)))
  {
    hide DnsDomain; hide DnsReads;
    forall j | 0 <= j < |item.domains| ensures DnsReads(item.domains[j], DnsDomain(item.domains[j])) {
      DnsDomainReads(item.domains[j]);
    }
  }

  lemma ManyPartsNeedColon(text: string)
    requires |Split(text, ':')| > 2
    ensures ':' in text
  {
    if ':' !in text {
      SplitWhole(text, ':');
    }
  }

  lemma NotPrintedFull(r: PanelRule, text: string)
    requires !r.Full? && |r.value| < |text|
    ensures PrintRule(r) != "full:" + text
  {
    assert ("full:" + text)[0] == 'f' && |"full:" + text| == |text| + 5;
    assert ("domain:" + r.value)[0] == 'd' && ("regexp:" + r.value)[0] == 'r';
  }

  lemma PrintedFullExactly(value: string, text: string)
    ensures PrintRule(Full(value)) == "full:" + text <==> value == text
  {
    assert ("full:" + value)[5..] == value && ("full:" + text)[5..] == text;
  }

  /** A rule with a colon is never a whole name, and its value is shorter than the text. */
  lemma ColonRule(text: string)
    requires ReadRule(text).Some?
    ensures ':' in TrimSpace(text) ==> !ReadRule(text).value.Full? && |ReadRule(text).value.value| < |text|
    ensures ':' !in TrimSpace(text) ==> ReadRule(text).value == Full(TrimSpace(text))
  {
    hide IsSpace; hide TrimSpace; hide CutFirst;
    var rule := TrimSpace(text);
    if ':' in rule {
      var (kind, value) := CutFirst(rule, ':');
      assert |rule| == |kind| + 1 + |value| && |TrimSpace(value)| <= |value|;
    }
  }

  /** A text with two or more colons is a whole name for the name servers, whatever kind it starts with, while the
      router reads its kind: the two never agree on such a text. */
  lemma ColonsAreReadApart(text: string)
    requires |Split(text, ':')| > 2
    ensures DnsDomain(text) == "full:" + text && RouteDomain(text) != Some(DnsDomain(text))
  {
    ManyPartsNeedColon(text);
    hide Split; hide TrimSpace; hide ReadRule; hide PrintRule;
    if ReadRule(text).Some? {
      ColonRule(text);
      if ':' in TrimSpace(text) {
        NotPrintedFull(ReadRule(text).value, text);
      } else {
        PrintedFullExactly(TrimSpace(text), text);
      }
    }
  }

  // ---- When name servers and rules are read alike ----

  /** What is printed in front of a value of some kind. */
  function PrefixOf(kind: string): string {
    if kind == "suffix" then "domain:" else if kind == "regex" then "regexp:" else ""
  }

  /** Nothing is there to trim that would make a difference: a text without a colon is trimmed and not empty, and around
      the only colon of a text so is the value, and trimming the kind leaves its prefix alone. */
  ghost predicate TrimmedEnough(text: string) {
    var parts := Split(text, ':');
    || (|parts| == 1 && Trimmed(text))
    || (|parts| == 2 && Trimmed(parts[1]) && PrefixOf(parts[0]) == PrefixOf(TrimSpace(parts[0])))
  }

  lemma OnePart(text: string)
    requires |Split(text, ':')| == 1
    ensures ':' !in text
  {
    SplitPartsAreFree(text, ':');
    JoinUndoesSplit(text, ':');
  }

  lemma TwoParts(text: string)
    requires |Split(text, ':')| == 2
    ensures var parts := Split(text, ':');
            ':' !in parts[0] && ':' !in parts[1] && text == parts[0] + [':'] + parts[1]
  {
    SplitPartsAreFree(text, ':');
    JoinUndoesSplit(text, ':');
    var parts := Split(text, ':');
    assert parts[1..] == [parts[1]];
  }

  lemma PrintedIsPrefixed(kind: string, value: string)
    ensures (if kind == "suffix" then PrintRule(Suffix(value)) else if kind == "regex" then PrintRule(Regex(value))
             else PrintRule(Keyword(value))) == PrefixOf(kind) + value
  {
  }

  /** With values free of colons equal texts have equal prefixes and values. */
  lemma PrefixesApart(k1: string, v1: string, k2: string, v2: string)
    requires ':' !in v1 && ':' !in v2
    ensures PrefixOf(k1) + v1 == PrefixOf(k2) + v2 <==> PrefixOf(k1) == PrefixOf(k2) && v1 == v2
  {
    var p1, p2 := PrefixOf(k1), PrefixOf(k2);
    PrefixForm(k1);
    PrefixForm(k2);
    hide PrefixOf;
    if p1 + v1 == p2 + v2 {
      ColonPlace(p1, v1);
      ColonPlace(p2, v2);
      assert (p1 + v1)[|p1|..] == v1 && (p2 + v2)[|p2|..] == v2;
      assert (p1 + v1)[..|p1|] == p1 && (p2 + v2)[..|p2|] == p2;
    }
  }

  lemma PrefixForm(kind: string)
    ensures PrefixOf(kind) == "" || (|PrefixOf(kind)| == 7 && PrefixOf(kind)[6] == ':')
  {
  }

  lemma ColonPlace(prefix: string, value: string)
    requires prefix == "" || (|prefix| == 7 && prefix[6] == ':')
    requires ':' !in value
    ensures ':' in prefix + value <==> prefix != ""
  {
    if prefix != "" {
      assert (prefix + value)[6] == ':';
    }
  }

  /** The route reading of a text with a colon: the kind is trimmed, the value too. */
  lemma RouteOfPair(kind: string, value: string)
    requires ':' !in kind && ':' !in value
    ensures var v := TrimSpace(TrimRight(value));
            RouteDomain(kind + [':'] + value) == if v == "" then None else Some(PrefixOf(TrimSpace(kind)) + v)
  {
    assert !IsSpace(':');
    TrimOver(kind, ':', value);
    TrimLeftTwice(kind);
    TrimKeepsFree(kind, ':');
    CutAt(TrimLeft(kind), ':', TrimRight(value));
    assert TrimSpace(TrimLeft(kind)) == TrimSpace(kind);
    PrintedIsPrefixed(TrimSpace(kind), TrimSpace(TrimRight(value)));
    hide IsSpace; hide TrimLeft; hide TrimRight; hide TrimSpace; hide CutFirst; hide PrefixOf; hide PrintRule;
  }

  lemma TrimmedExactly(value: string)
    ensures TrimSpace(TrimRight(value)) == value && value != "" <==> Trimmed(value)
    ensures TrimSpace(value) == value && value != "" <==> Trimmed(value)
  {
    hide IsSpace; hide TrimLeft;
    if Trimmed(value) {
      TrimSpaceKeepsTrimmed(value);
      assert TrimRight(value) == value;
    }
  }

  lemma PairReadAlikeExactly(text: string)
    requires |Split(text, ':')| == 2
    ensures RouteDomain(text) == Some(DnsDomain(text)) <==> TrimmedEnough(text)
  {
    TwoParts(text);
    var kind, value := Split(text, ':')[0], Split(text, ':')[1];
    assert DnsDomain(text) == PrefixOf(kind) + value;
    hide Split; hide DnsDomain; hide RouteDomain; hide IsSpace; hide TrimSpace; hide TrimRight; hide TrimLeft;
    hide PrefixOf;
    RouteOfPair(kind, value);
    TrimKeepsFree(value, ':');
    TrimKeepsFree(TrimRight(value), ':');
    PrefixesApart(TrimSpace(kind), TrimSpace(TrimRight(value)), kind, value);
    TrimmedExactly(value);
    hide Trimmed;
  }

  lemma WholeReadAlikeExactly(text: string)
    requires |Split(text, ':')| == 1
    ensures RouteDomain(text) == Some(DnsDomain(text)) <==> TrimmedEnough(text)
  {
    OnePart(text);
    assert DnsDomain(text) == "full:" + text;
    hide Split; hide DnsDomain; hide IsSpace; hide TrimSpace; hide PrintRule; hide CutFirst;
    TrimKeepsFree(text, ':');
    TrimmedExactly(text);
    PrintedFullExactly(TrimSpace(text), text);
    hide Trimmed;
  }

  /** For every text: the name servers and the router read it alike exactly when it is trimmed enough and has one colon
      at most. */
  lemma ReadAlikeExactly(text: string)
    ensures RouteDomain(text) == Some(DnsDomain(text)) <==> TrimmedEnough(text)
  {
    hide RouteDomain; hide DnsDomain;
    if |Split(text, ':')| == 1 {
      WholeReadAlikeExactly(text);
    } else if |Split(text, ':')| == 2 {
      PairReadAlikeExactly(text);
    } else {
      ColonsAreReadApart(text);
    }
  }

  /** A blank after the colon of a suffix is part of the name for the name servers only. */
  lemma BlankBeforeValue(value: string)
    requires Trimmed(value) && ':' !in value
    ensures DnsDomain("suffix" + [':'] + (" " + value)) == "domain:" + (" " + value)
    ensures RouteDomain("suffix" + [':'] + (" " + value)) != Some(DnsDomain("suffix" + [':'] + (" " + value)))
  {
    var blank := " " + value;
    var text := "suffix" + [':'] + blank;
    assert blank[0] == ' ' && IsSpace(' ') && ':' !in blank;
    SplitAtFirstSeparator("suffix", ':', blank);
    SplitWhole(blank, ':');
    assert Split(text, ':') == ["suffix", blank];
    assert !TrimmedEnough(text);
    hide RouteDomain; hide Split; hide TrimmedEnough;
    ReadAlikeExactly(text);
  }

  // ---- The whole configuration ----

  predicate HasTag(outbounds: seq<Handler>, tag: string) {
    exists i | 0 <= i < |outbounds| :: outbounds[i].tag == tag
  }

  method HasOutboundWithTag(outbounds: seq<Handler>, tag: string) returns (found: bool)
    ensures found == HasTag(outbounds, tag)
  {
    for i := 0 to |outbounds|
      invariant forall j | 0 <= j < i :: outbounds[j].tag != tag
    {
      if outbounds[i].tag == tag {
        return true;
      }
    }
    return false;
  }

  function Builtins(): seq<Handler> {
    [Handler(DEFAULT_TAG, None), Handler(BLOCK_TAG, None), Handler(DNS_TAG, None)]
  }

  function BaseRules(block: Option<seq<string>>): seq<Rule> {
    [DnsRule(DNS_TAG)] +
    if block.Some? && RouteDomains(block.value) != [] then [DomainRule(RouteDomains(block.value), BLOCK_TAG)] else []
  }

  function ItemRules(lib: Library, items: seq<Outbound>): seq<Rule> {
    if items == [] then []
    else
      var before, item := ItemRules(lib, items[..|items| - 1]), items[|items| - 1];
      if Buildable(lib, item) && RouteDomains(item.rules) != []
      then before + [DomainRule(RouteDomains(item.rules), item.name)] else before
  }

  function Handlers(lib: Library, items: seq<Outbound>): seq<Handler> {
    if items == [] then Builtins()
    else
      var before, item := Handlers(lib, items[..|items| - 1]), items[|items| - 1];
      if Buildable(lib, item) && !HasTag(before, item.name) then before + [Handler(item.name, Some(DetourOf(item)))]
      else before
  }

  function Items(config: Config): seq<Outbound> {
    if config.outbounds.Some? then config.outbounds.value else []
  }

  predicate AnyFails(lib: Library, items: seq<Outbound>) {
    exists i | 0 <= i < |items| :: Fails(lib, items[i])
  }

  function Compiled(lib: Library, config: Config): BuildResult {
    var rules := BaseRules(config.block) + ItemRules(lib, Items(config));
    if AnyFails(lib, Items(config)) || !lib.dnsBuilds(CompiledDns(lib, config)) || !lib.routerBuilds(rules) then Failed
    else Built(CompiledDns(lib, config), Handlers(lib, Items(config)), rules)
  }

  method Build(lib: Library, config: Config) returns (result: BuildResult)
    ensures result == Compiled(lib, config)
  {
    hide SettingsFail; hide SettingsSkip; hide StreamFails; hide RouteDomains; hide HasTag; hide CompiledDns;
    hide NormalizeProtocol; hide StreamOf;
    var dns := BuildDns(lib, config);
    var outbounds := Builtins();
    var rules := [DnsRule(DNS_TAG)];
    if config.block.Some? {
      var domains := BuildRouteDomains(config.block.value);
      if |domains| > 0 {
        rules := rules + [DomainRule(domains, BLOCK_TAG)];
      }
    }
    assert rules == BaseRules(config.block);
    var items := if config.outbounds.Some? then config.outbounds.value else [];
    for i := 0 to |items|
      invariant forall j | 0 <= j < i :: !Fails(lib, items[j])
      invariant rules == BaseRules(config.block) + ItemRules(lib, items[..i])
      invariant outbounds == Handlers(lib, items[..i])
    {
      var item := items[i];
      assert items[..i + 1][..i] == items[..i];
      if SettingsFail(lib, item) {
        assert Fails(lib, item);
        return Failed;
      }
      if SettingsSkip(item) {
        continue;
      }
      if StreamFails(lib, item) {
        assert Fails(lib, item);
        return Failed;
      }
      var domains := BuildRouteDomains(item.rules);
      var detour := Detour(NormalizeProtocol(item.protocol), StreamOf(item), item);
      if !lib.detourBuilds(detour) {
        continue;
      }
      if |domains| > 0 {
        rules := rules + [DomainRule(domains, item.name)];
      }
      var found := HasOutboundWithTag(outbounds, item.name);
      if found {
        continue;
      }
      outbounds := outbounds + [Handler(item.name, Some(detour))];
    }
    assert items[..|items|] == items;
    if !lib.dnsBuilds(dns) || !lib.routerBuilds(rules) {
      return Failed;
    }
    return Built(dns, outbounds, rules);
  }

  // ---- The router's meaning ----

  /** What is routed: whether it is UDP to port 53, and its destination. */
  datatype Query = Query(dns: bool, destination: string)

  /** How the library matches a rule of some kind and value against a destination is its own matter. */
  type Matcher = (PanelRule, string) -> bool

  /** The router goes by the kind and value it reads back from the compiled text. */
  predicate RuleMatches(matches: Matcher, rule: Rule, q: Query) {
    match rule
    case DnsRule(_) => q.dns
    case DomainRule(domains, _) => exists i | 0 <= i < |domains| :: matches(ReadPrinted(domains[i]), q.destination)
  }

  /** First-match evaluation. */
  function FirstMatch(matches: Matcher, rules: seq<Rule>, q: Query): Option<string> {
    if rules == [] then None
    else if RuleMatches(matches, rules[0], q) then Some(rules[0].tag)
    else FirstMatch(matches, rules[1..], q)
  }

  /** The handler manager's first handler is the default. */
  function Route(matches: Matcher, outbounds: seq<Handler>, rules: seq<Rule>, q: Query): string
    requires outbounds != []
  {
    var tag := FirstMatch(matches, rules, q);
    if tag.Some? then tag.value else outbounds[0].tag
  }

  /** Some rule of a panel list, as the panel means it, matches. */
  ghost predicate ListMatches(matches: Matcher, rules: seq<string>, q: Query) {
    exists r | r in rules :: ReadRule(r).Some? && matches(ReadRule(r).value, q.destination)
  }

  /** A list of rules matches as the panel means it, or as it is compiled. */
  datatype Reader = Panel | Router

  ghost predicate Sees(reader: Reader, matches: Matcher, rules: seq<string>, q: Query) {
    match reader
    case Panel => ListMatches(matches, rules, q)
    case Router => RuleMatches(matches, DomainRule(RouteDomains(rules), ""), q)
  }

  /** The first usable item whose rules match. */
  ghost function FirstItem(reader: Reader, lib: Library, matches: Matcher, items: seq<Outbound>,
                           q: Query): (n: Option<nat>)
    ensures n.Some? ==> n.value < |items|
  {
    if items == [] then None
    else
      var last := |items| - 1;
      var before := FirstItem(reader, lib, matches, items[..last], q);
      if before.Some? then before
      else if Usable(lib, items[last]) && Sees(reader, matches, items[last].rules, q) then Some(last) else None
  }

  /** What decides a query: the rule for name servers, the block list, an item, or nothing. */
  datatype Decider = ByDns | ByBlock | ByItem(n: nat) | ByDefault

  ghost function Decides(reader: Reader, lib: Library, matches: Matcher, config: Config, q: Query): (d: Decider)
    ensures d.ByItem? ==> d.n < |Items(config)|
  {
    if q.dns then ByDns
    else if config.block.Some? && Sees(reader, matches, config.block.value, q) then ByBlock
    else
      var n := FirstItem(reader, lib, matches, Items(config), q);
      if n.Some? then ByItem(n.value) else ByDefault
  }

  function TagOf(config: Config, d: Decider): string
    requires d.ByItem? ==> d.n < |Items(config)|
  {
    match d
    case ByDns => DNS_TAG
    case ByBlock => BLOCK_TAG
    case ByItem(n) => Items(config)[n].name
    case ByDefault => DEFAULT_TAG
  }

  /** A direct reading of the panel configuration. */
  ghost function Meaning(lib: Library, matches: Matcher, config: Config, q: Query): string {
    TagOf(config, Decides(Panel, lib, matches, config, q))
  }

  // ---- What the compiled rules decide ----

  lemma {:induction false} FirstMatchAppend(matches: Matcher, rules: seq<Rule>, more: seq<Rule>, q: Query)
    ensures FirstMatch(matches, rules + more, q) ==
            if FirstMatch(matches, rules, q).Some? then FirstMatch(matches, rules, q) else FirstMatch(matches, more, q)
  {
    hide RuleMatches;
    if rules == [] {
      assert rules + more == more;
    } else {
      FirstMatchAppend(matches, rules[1..], more, q);
      assert (rules + more)[1..] == rules[1..] + more;
    }
  }

  lemma FirstMatchOne(matches: Matcher, rule: Rule, q: Query)
    ensures FirstMatch(matches, [rule], q) == if RuleMatches(matches, rule, q) then Some(rule.tag) else None
  {
    hide RuleMatches;
    assert [rule][1..] == [] && FirstMatch(matches, [], q) == None;
  }

  lemma SeesRule(matches: Matcher, rules: seq<string>, tag: string, q: Query)
    ensures RuleMatches(matches, DomainRule(RouteDomains(rules), tag), q) <==> Sees(Router, matches, rules, q)
    ensures RouteDomains(rules) == [] ==> !Sees(Router, matches, rules, q)
  {
    hide RouteDomains; hide ReadPrinted;
  }

  /** First match over the items' rules is the name of the first usable item whose compiled rules match. */
  lemma {:induction false} ItemRulesMeaning(lib: Library, matches: Matcher, items: seq<Outbound>, q: Query)
    ensures var n := FirstItem(Router, lib, matches, items, q);
            FirstMatch(matches, ItemRules(lib, items), q) == if n.Some? then Some(items[n.value].name) else None
  {
    hide Usable; hide Buildable; hide Sees; hide RouteDomains; hide RuleMatches;
    if items != [] {
      var most, item := items[..|items| - 1], items[|items| - 1];
      UsableExactly(lib, item);
      ItemRulesMeaning(lib, matches, most, q);
      SeesRule(matches, item.rules, item.name, q);
      var rule := DomainRule(RouteDomains(item.rules), item.name);
      FirstMatchAppend(matches, ItemRules(lib, most), [rule], q);
      FirstMatchOne(matches, rule, q);
    }
  }

  lemma BaseMeaning(matches: Matcher, block: Option<seq<string>>, q: Query)
    ensures FirstMatch(matches, BaseRules(block), q) ==
            if q.dns then Some(DNS_TAG)
            else if block.Some? && Sees(Router, matches, block.value, q) then Some(BLOCK_TAG) else None
  {
    hide Sees; hide RouteDomains; hide FirstMatch;
    var dns := DnsRule(DNS_TAG);
    FirstMatchOne(matches, dns, q);
    if block.Some? && RouteDomains(block.value) != [] {
      var rule := DomainRule(RouteDomains(block.value), BLOCK_TAG);
      SeesRule(matches, block.value, BLOCK_TAG, q);
      FirstMatchOne(matches, rule, q);
      FirstMatchAppend(matches, [dns], [rule], q);
    } else {
      if block.Some? {
        SeesRule(matches, block.value, BLOCK_TAG, q);
      }
      assert BaseRules(block) == [dns];
    }
  }

  /** Despite filtering, deduplication, skipped items and repeated names the router goes to the tag of what the compiled
      lists decide. */
  lemma RouterFollowsDecider(lib: Library, matches: Matcher, config: Config, q: Query)
    ensures var b := Compiled(lib, config);
            b.Built? ==>
              && b.outbounds != []
              && Route(matches, b.outbounds, b.rules, q) == TagOf(config, Decides(Router, lib, matches, config, q))
  {
    hide Sees; hide RouteDomains; hide ItemRules; hide FirstItem; hide Usable; hide AnyFails; hide Handlers;
    hide FirstMatch;
    hide BaseRules; hide CompiledDns;
    var base, more := BaseRules(config.block), ItemRules(lib, Items(config));
    HandlersWellFormed(lib, Items(config));
    ItemRulesMeaning(lib, matches, Items(config), q);
    FirstMatchAppend(matches, base, more, q);
    BaseMeaning(matches, config.block, q);
  }

  // ---- Rules the compiled text cannot tell apart ----

  predicate Ambiguous(r: PanelRule) {
    r.Keyword? && HasPrintedPrefix(r.value)
  }

  /** No rule of the list is a keyword that starts with one of the compiler's prefixes. */
  ghost predicate Plain(rules: seq<string>) {
    forall r | r in rules && ReadRule(r).Some? :: !Ambiguous(ReadRule(r).value)
  }

  /** That holds of the block list and of all usable items. */
  ghost predicate PlainInForce(lib: Library, config: Config) {
    && (config.block.Some? ==> Plain(config.block.value))
    && (forall i | 0 <= i < |Items(config)| && Usable(lib, Items(config)[i]) :: Plain(Items(config)[i].rules))
  }

  lemma ReadPrintedIsPlain(s: string)
    ensures !Ambiguous(ReadPrinted(s))
  {
  }

  /** What a compiled list reads back to is what its rules print to, read again. */
  lemma SeesPrinted(matches: Matcher, rules: seq<string>, q: Query)
    ensures Sees(Router, matches, rules, q) <==>
            exists r | r in rules ::
              ReadRule(r).Some? && matches(ReadPrinted(PrintRule(ReadRule(r).value)), q.destination)
  {
    hide ReadRule; hide RouteDomains; hide ReadPrinted; hide PrintRule;
    RouteDomainsComplete(rules);
    var domains := RouteDomains(rules);
    if r :| r in rules && ReadRule(r).Some? && matches(ReadPrinted(PrintRule(ReadRule(r).value)), q.destination) {
      assert RouteDomain(r) == Some(PrintRule(ReadRule(r).value));
      assert PrintRule(ReadRule(r).value) in domains;
    }
    if i :| 0 <= i < |domains| && matches(ReadPrinted(domains[i]), q.destination) {
      assert Meant(rules, domains[i]);
    }
  }

  lemma PlainListsSeeAlike(matches: Matcher, rules: seq<string>, q: Query)
    requires Plain(rules)
    ensures Sees(Router, matches, rules, q) <==> Sees(Panel, matches, rules, q)
  {
    hide ReadRule; hide RouteDomains; hide ReadPrinted; hide PrintRule; hide HasPrintedPrefix;
    SeesPrinted(matches, rules, q);
    forall r | r in rules && ReadRule(r).Some?
      ensures ReadPrinted(PrintRule(ReadRule(r).value)) == ReadRule(r).value
    {
      PrintedRuleFaithfulExactly(ReadRule(r).value);
    }
  }

  /** The matcher of one rule only. */
  function Only(k: PanelRule): Matcher {
    (r: PanelRule, destination: string) => r == k
  }

  const SOME_QUERY := Query(false, "")

  lemma AmbiguousIsNotSeen(k: PanelRule, rules: seq<string>)
    requires Ambiguous(k)
    ensures !Sees(Router, Only(k), rules, SOME_QUERY)
  {
    hide Ambiguous; hide ReadPrinted; hide RouteDomains;
    forall s: string ensures ReadPrinted(s) != k {
      ReadPrintedIsPlain(s);
    }
  }

  lemma {:induction false} FirstItemAlike(lib: Library, matches: Matcher, items: seq<Outbound>, q: Query)
    requires forall i | 0 <= i < |items| && Usable(lib, items[i]) :: Plain(items[i].rules)
    ensures FirstItem(Router, lib, matches, items, q) == FirstItem(Panel, lib, matches, items, q)
  {
    hide Usable; hide Sees; hide Plain;
    if items != [] {
      var last := |items| - 1;
      FirstItemAlike(lib, matches, items[..last], q);
      if Usable(lib, items[last]) {
        PlainListsSeeAlike(matches, items[last].rules, q);
      }
    }
  }

  lemma {:induction false} FirstItemExists(reader: Reader, lib: Library, matches: Matcher, items: seq<Outbound>,
                                           q: Query)
    ensures FirstItem(reader, lib, matches, items, q).Some? <==>
            exists i | 0 <= i < |items| :: Usable(lib, items[i]) && Sees(reader, matches, items[i].rules, q)
    ensures FirstItem(reader, lib, matches, items, q).Some? ==>
              Usable(lib, items[FirstItem(reader, lib, matches, items, q).value])
  {
    hide Usable; hide Sees;
    if items != [] {
      var last := |items| - 1;
      FirstItemExists(reader, lib, matches, items[..last], q);
      if i :| 0 <= i < |items| && Usable(lib, items[i]) && Sees(reader, matches, items[i].rules, q) {
        if i < last {
          assert items[..last][i] == items[i];
        }
      }
    }
  }

  lemma PlainDecidesAlike(lib: Library, matches: Matcher, config: Config, q: Query)
    requires PlainInForce(lib, config)
    ensures Decides(Router, lib, matches, config, q) == Decides(Panel, lib, matches, config, q)
  {
    hide Usable; hide Sees; hide Plain; hide FirstItem;
    if config.block.Some? {
      PlainListsSeeAlike(matches, config.block.value, q);
    }
    FirstItemAlike(lib, matches, Items(config), q);
  }

  /** An ambiguous keyword in force tells the two readings apart: the panel means its list, the router does not see
      it. */
  lemma AmbiguousTellsApart(lib: Library, config: Config) returns (k: PanelRule)
    requires !PlainInForce(lib, config)
    ensures Decides(Router, lib, Only(k), config, SOME_QUERY).ByDefault?
    ensures var d := Decides(Panel, lib, Only(k), config, SOME_QUERY);
            d.ByBlock? || (d.ByItem? && Usable(lib, Items(config)[d.n]))
  {
    hide Usable; hide ReadRule; hide FirstItem; hide HasPrintedPrefix; hide RouteDomains; hide ReadPrinted;
    var rules: seq<string>;
    if config.block.Some? && !Plain(config.block.value) {
      rules := config.block.value;
    } else {
      var i :| 0 <= i < |Items(config)| && Usable(lib, Items(config)[i]) && !Plain(Items(config)[i].rules);
      rules := Items(config)[i].rules;
    }
    var r :| r in rules && ReadRule(r).Some? && Ambiguous(ReadRule(r).value);
    k := ReadRule(r).value;
    assert Sees(Panel, Only(k), rules, SOME_QUERY);
    if config.block.Some? {
      AmbiguousIsNotSeen(k, config.block.value);
    }
    forall i | 0 <= i < |Items(config)| ensures !Sees(Router, Only(k), Items(config)[i].rules, SOME_QUERY) {
      AmbiguousIsNotSeen(k, Items(config)[i].rules);
    }
    hide Sees;
    FirstItemExists(Router, lib, Only(k), Items(config), SOME_QUERY);
    FirstItemExists(Panel, lib, Only(k), Items(config), SOME_QUERY);
  }

  /** For every query and every way the library may match rules: the block list, the item or the default that decides
      for the router is the one the panel's configuration means. This holds exactly when no keyword in force starts with
      one of the compiler's own prefixes. */
  lemma DecidesAlikeExactly(lib: Library, config: Config)
    ensures (forall matches: Matcher, q ::
               Decides(Router, lib, matches, config, q) == Decides(Panel, lib, matches, config, q)) <==>
            PlainInForce(lib, config)
  {
    hide Decides; hide PlainInForce;
    if PlainInForce(lib, config) {
      forall matches: Matcher, q
        ensures Decides(Router, lib, matches, config, q) == Decides(Panel, lib, matches, config, q)
      {
        PlainDecidesAlike(lib, matches, config, q);
      }
    } else {
      var k := AmbiguousTellsApart(lib, config);
      assert Decides(Router, lib, Only(k), config, SOME_QUERY) != Decides(Panel, lib, Only(k), config, SOME_QUERY);
    }
  }

  ghost predicate RoutesAlike(lib: Library, matches: Matcher, config: Config, q: Query)
  {
    var b := Compiled(lib, config);
    b.Built? ==> b.outbounds != [] && Route(matches, b.outbounds, b.rules, q) == Meaning(lib, matches, config, q)
  }

  /** The compiled router means what the configuration says, for every query and every way of matching. */
  lemma RouterPreservesMeaning(lib: Library, matches: Matcher, config: Config, q: Query)
    requires PlainInForce(lib, config)
    ensures RoutesAlike(lib, matches, config, q)
  {
    hide PlainInForce; hide Decides; hide Compiled; hide Route;
    RouterFollowsDecider(lib, matches, config, q);
    PlainDecidesAlike(lib, matches, config, q);
  }

  /** If no item bears the name of the default handler, that condition is exact for where queries go, too. */
  lemma RoutesAlikeExactly(lib: Library, config: Config)
    requires Compiled(lib, config).Built?
    requires forall i | 0 <= i < |Items(config)| && Usable(lib, Items(config)[i]) ::
               Items(config)[i].name != DEFAULT_TAG
    ensures (forall matches: Matcher, q :: RoutesAlike(lib, matches, config, q)) <==> PlainInForce(lib, config)
  {
    hide PlainInForce; hide Decides; hide Compiled; hide Route; hide Usable;
    if PlainInForce(lib, config) {
      forall matches: Matcher, q ensures RoutesAlike(lib, matches, config, q) {
        RouterPreservesMeaning(lib, matches, config, q);
      }
    } else {
      var k := AmbiguousTellsApart(lib, config);
      RouterFollowsDecider(lib, Only(k), config, SOME_QUERY);
      assert !RoutesAlike(lib, Only(k), config, SOME_QUERY);
    }
  }

  // ---- Well-formed results ----

  ghost predicate DistinctTags(outbounds: seq<Handler>) {
    forall i, j | 0 <= i < j < |outbounds| :: outbounds[i].tag != outbounds[j].tag
  }

  lemma {:induction false} HandlersWellFormed(lib: Library, items: seq<Outbound>)
    ensures Builtins() <= Handlers(lib, items) && DistinctTags(Handlers(lib, items))
    ensures forall i | 0 <= i < |items| && Usable(lib, items[i]) :: HasTag(Handlers(lib, items), items[i].name)
  {
    hide Usable; hide Buildable; hide DetourOf;
    if items != [] {
      var before := Handlers(lib, items[..|items| - 1]);
      HandlersWellFormed(lib, items[..|items| - 1]);
      UsableExactly(lib, items[|items| - 1]);
      forall i | 0 <= i < |items| && Usable(lib, items[i]) ensures HasTag(Handlers(lib, items), items[i].name) {
        if i < |items| - 1 {
          assert items[..|items| - 1][i] == items[i];
          var k :| 0 <= k < |before| && before[k].tag == items[i].name;
          assert Handlers(lib, items)[k] == before[k];
        } else {
          assert HasTag(before, items[i].name) || Handlers(lib, items)[|before|].tag == items[i].name;
        }
      }
    }
  }

  lemma {:induction false} FirstItemIs(reader: Reader, lib: Library, matches: Matcher, items: seq<Outbound>, i: nat,
                                       q: Query)
    requires i < |items| && Usable(lib, items[i]) && Sees(reader, matches, items[i].rules, q)
    requires forall j | 0 <= j < i :: !(Usable(lib, items[j]) && Sees(reader, matches, items[j].rules, q))
    ensures FirstItem(reader, lib, matches, items, q) == Some(i)
  {
    hide Usable; hide Sees;
    var last := |items| - 1;
    if i < last {
      FirstItemIs(reader, lib, matches, items[..last], i, q);
    } else {
      FirstItemExists(reader, lib, matches, items[..last], q);
    }
  }

  /** Every usable item is served: in whatever is built it has a handler under its name, and what its rules match, if
      neither the rule for name servers nor the block list nor an earlier usable item does, goes there. */
  lemma UsableIsServed(lib: Library, matches: Matcher, config: Config, i: nat, q: Query)
    requires Compiled(lib, config).Built? && i < |Items(config)| && Usable(lib, Items(config)[i])
    ensures var b := Compiled(lib, config);
            && b.outbounds != [] && HasTag(b.outbounds, Items(config)[i].name)
            && (!q.dns && !(config.block.Some? && Sees(Router, matches, config.block.value, q)) &&
                Sees(Router, matches, Items(config)[i].rules, q) &&
                (forall j | 0 <= j < i ::
                   !(Usable(lib, Items(config)[j]) && Sees(Router, matches, Items(config)[j].rules, q))) ==>
                  Route(matches, b.outbounds, b.rules, q) == Items(config)[i].name)
  {
    hide Usable; hide Sees; hide FirstItem; hide Route; hide Handlers; hide ItemRules; hide BaseRules; hide CompiledDns;
    hide AnyFails; hide HasTag;
    HandlersWellFormed(lib, Items(config));
    RouterFollowsDecider(lib, matches, config, q);
    if Sees(Router, matches, Items(config)[i].rules, q) &&
       forall j | 0 <= j < i :: !(Usable(lib, Items(config)[j]) && Sees(Router, matches, Items(config)[j].rules, q))
    {
      FirstItemIs(Router, lib, matches, Items(config), i, q);
    }
  }

  /** The tag is the name of a usable item. */
  ghost predicate NamesItem(lib: Library, items: seq<Outbound>, tag: string) {
    exists i | 0 <= i < |items| :: Usable(lib, items[i]) && items[i].name == tag
  }

  lemma NamesItemOfMore(lib: Library, items: seq<Outbound>, item: Outbound, tag: string)
    ensures NamesItem(lib, items, tag) || (Usable(lib, item) && item.name == tag) ==>
              NamesItem(lib, items + [item], tag)
  {
    hide Usable;
    if NamesItem(lib, items, tag) {
      var i :| 0 <= i < |items| && Usable(lib, items[i]) && items[i].name == tag;
      assert (items + [item])[i] == items[i];
    }
    assert (items + [item])[|items|] == item;
  }

  lemma {:induction false} ItemRulesNameItems(lib: Library, items: seq<Outbound>, k: nat)
    requires k < |ItemRules(lib, items)|
    ensures NamesItem(lib, items, ItemRules(lib, items)[k].tag)
  {
    hide Usable; hide Buildable; hide RouteDomains; hide NamesItem;
    var most, item := items[..|items| - 1], items[|items| - 1];
    UsableExactly(lib, item);
    assert most + [item] == items;
    NamesItemOfMore(lib, most, item, ItemRules(lib, items)[k].tag);
    if k < |ItemRules(lib, most)| {
      ItemRulesNameItems(lib, most, k);
    }
  }

  /** A configuration builds exactly when no item is broken and the library takes the name servers and the rules; and
      then it is these that are returned. */
  lemma BuildsExactly(lib: Library, config: Config)
    ensures var b := Compiled(lib, config);
            b.Built? ==>
              && lib.dnsBuilds(b.dns) && lib.routerBuilds(b.rules)
              && b.dns == CompiledDns(lib, config)
              && forall i | 0 <= i < |Items(config)| :: !Broken(lib, Items(config)[i])
    ensures Compiled(lib, config).Failed? ==>
              || (exists i | 0 <= i < |Items(config)| :: Broken(lib, Items(config)[i]))
              || (exists dns :: !lib.dnsBuilds(dns)) || (exists rules :: !lib.routerBuilds(rules))
  {
    hide ItemRules; hide Handlers; hide BaseRules; hide CompiledDns; hide Fails; hide Broken; hide Usable;
    forall i | 0 <= i < |Items(config)|
      ensures Fails(lib, Items(config)[i]) <==> Broken(lib, Items(config)[i])
    {
      UsableExactly(lib, Items(config)[i]);
    }
  }

  /** For every configuration that builds: tags are pairwise distinct, the built-in handlers come first, and every rule
      names a handler of the list. */
  lemma BuiltWellFormed(lib: Library, config: Config)
    ensures var b := Compiled(lib, config);
            b.Built? ==>
              && Builtins() <= b.outbounds && DistinctTags(b.outbounds)
              && forall k | 0 <= k < |b.rules| :: HasTag(b.outbounds, b.rules[k].tag)
  {
    hide ItemRules; hide Handlers; hide Usable; hide AnyFails; hide RouteDomains; hide NamesItem;
    var items, b := Items(config), Compiled(lib, config);
    if b.Built? {
      HandlersWellFormed(lib, items);
      assert b.outbounds[1].tag == BLOCK_TAG && b.outbounds[2].tag == DNS_TAG;
      forall k | 0 <= k < |b.rules| ensures HasTag(b.outbounds, b.rules[k].tag) {
        var n := |BaseRules(config.block)|;
        if k >= n {
          assert b.rules[k] == ItemRules(lib, items)[k - n];
          NamedItemHasHandler(lib, items, k - n);
        }
      }
    }
  }

  lemma NamedItemHasHandler(lib: Library, items: seq<Outbound>, k: nat)
    requires k < |ItemRules(lib, items)|
    ensures HasTag(Handlers(lib, items), ItemRules(lib, items)[k].tag)
  {
    hide ItemRules; hide Handlers; hide Usable; hide RouteDomains;
    HandlersWellFormed(lib, items);
    ItemRulesNameItems(lib, items, k);
  }

  /** The first usable item of a name. */
  ghost function FirstNamed(lib: Library, items: seq<Outbound>, name: string): Option<Outbound> {
    if items == [] then None
    else
      var before := FirstNamed(lib, items[..|items| - 1], name);
      if before.Some? then before
      else if Usable(lib, items[|items| - 1]) && items[|items| - 1].name == name
      then Some(items[|items| - 1]) else None
  }

  /** With repeated names the first usable item of a name makes its handler, and an item named like a built-in
      handler never makes one: its rules lead to the built-in handler. */
  lemma {:induction false} HandlerOfName(lib: Library, items: seq<Outbound>, h: Handler)
    ensures h in Handlers(lib, items) <==>
            || h in Builtins()
            || (!HasTag(Builtins(), h.tag) && h.detour.Some? &&
                FirstNamed(lib, items, h.tag) == Some(h.detour.value.item) &&
                StandsFor(h.detour.value.item, h.detour.value))
    ensures HasTag(Handlers(lib, items), h.tag) <==> HasTag(Builtins(), h.tag) || FirstNamed(lib, items, h.tag).Some?
  {
    hide Usable; hide Buildable; hide StandsFor; hide DetourOf;
    if items != [] {
      var before := Handlers(lib, items[..|items| - 1]);
      UsableExactly(lib, items[|items| - 1]);
      if h.detour.Some? {
        DetourExactly(items[|items| - 1], h.detour.value);
      }
      DetourOfItem(items[|items| - 1]);
      HandlerOfName(lib, items[..|items| - 1], h);
      TagSnoc(before, Handler(items[|items| - 1].name, Some(DetourOf(items[|items| - 1]))), h.tag);
      NamedItem(lib, items, h.tag);
      NamedItem(lib, items[..|items| - 1], h.tag);
    }
  }

  lemma DetourOfItem(item: Outbound)
    ensures DetourOf(item).item == item && StandsFor(item, DetourOf(item))
  {
    hide StandsFor;
    DetourExactly(item, DetourOf(item));
  }

  lemma TagSnoc(outbounds: seq<Handler>, h: Handler, tag: string)
    ensures HasTag(outbounds + [h], tag) <==> HasTag(outbounds, tag) || h.tag == tag
  {
    assert (outbounds + [h])[|outbounds|] == h;
    if i :| 0 <= i < |outbounds| && outbounds[i].tag == tag {
      assert (outbounds + [h])[i] == outbounds[i];
    }
  }

  lemma {:induction false} NamedItem(lib: Library, items: seq<Outbound>, name: string)
    ensures FirstNamed(lib, items, name).Some? ==> FirstNamed(lib, items, name).value.name == name
  {
    hide Usable;
    if items != [] {
      NamedItem(lib, items[..|items| - 1], name);
    }
  }
}
