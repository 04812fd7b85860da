/** The VLESS decryption string (core/inbound/vless.go) and the checks made before it is printed (core/validate.go). */
module Vless {
  import opened Text

  datatype Error =
    | NoServerConfig | NoServerData | NoProtocolList
    | TypeRequired | PortOutOfRange | UnsupportedType | CipherRequired
    | TransportRequired | UnsupportedTransport | UnsupportedSecurity
    | SniRequired | UnsupportedCertMode
    | PrivateKeyRequired | ShortIdRequired | RealitySniRequired | RealityPortOutOfRange
    | UnsupportedEncryption | ModeRequired | UnsupportedMode | TicketRequired | KeyRequired
    | UnsupportedMethod | TooFewParts

  datatype Result<T> = Ok(value: T) | Err(error: Error)

  datatype Protocol = Protocol(kind: string, enable: bool, port: int, cipher: string, transport: string,
                               security: string, certMode: string, sni: string, realityPrivateKey: string,
                               realityShortId: string, realityServerPort: int, encryption: string, mode: string,
                               ticket: string, padding: string, key: string)

  const METHOD := "mlkem768x25519plus"

  predicate Blank(s: string) {
    TrimSpace(s) == ""
  }

  // ---- The checks ----

  function ValidateVlessEncryption(p: Protocol): Result<()> {
    if p.encryption == "" || p.encryption == "none" then Ok(())
    else if p.encryption != METHOD then Err(UnsupportedEncryption)
    else if Blank(p.mode) then Err(ModeRequired)
    else if p.mode !in {"native", "xorpub", "random"} then Err(UnsupportedMode)
    else if Blank(p.ticket) then Err(TicketRequired)
    else if Blank(p.key) then Err(KeyRequired)
    else Ok(())
  }

  function ValidateTls(p: Protocol): Result<()> {
    var mode := TrimSpace(p.certMode);
    if mode in {"", "none", "file"} then Ok(())
    else if mode in {"self", "dns", "http"} then if Blank(p.sni) then Err(SniRequired) else Ok(())
    else Err(UnsupportedCertMode)
  }

  function ValidateReality(p: Protocol): Result<()> {
    if Blank(p.realityPrivateKey) then Err(PrivateKeyRequired)
    else if Blank(p.realityShortId) then Err(ShortIdRequired)
    else if Blank(p.sni) then Err(RealitySniRequired)
    else if p.realityServerPort <= 0 || p.realityServerPort > 65535 then Err(RealityPortOutOfRange)
    else Ok(())
  }

  function ValidateSecurity(p: Protocol): Result<()> {
    if p.security == "" || p.security == "none" then Ok(())
    else if p.security == "tls" then ValidateTls(p)
    else if p.security == "reality" then ValidateReality(p)
    else Err(UnsupportedSecurity)
  }

  function ValidateStream(p: Protocol): Result<()> {
    if Blank(p.transport) then Err(TransportRequired)
    else if p.transport !in {"tcp", "ws", "websocket", "grpc", "httpupgrade", "splithttp", "xhttp"} then
      Err(UnsupportedTransport)
    else if ValidateSecurity(p).Err? then ValidateSecurity(p)
    else if p.kind == "vless" then ValidateVlessEncryption(p)
    else Ok(())
  }

  function ValidateProtocol(p: Protocol): Result<()> {
    if !p.enable then Ok(())
    else if Blank(p.kind) then Err(TypeRequired)
    else if p.port <= 0 || p.port > 65535 then Err(PortOutOfRange)
    else if p.kind in {"vless", "vmess", "trojan"} then ValidateStream(p)
    else if p.kind == "shadowsocks" then if Blank(p.cipher) then Err(CipherRequired) else Ok(())
    else if p.kind in {"tuic", "hysteria", "hysteria2", "anytls", "mieru"} then Ok(())
    else Err(UnsupportedType)
  }

  // ---- What the checks accept ----

  ghost predicate TlsFits(p: Protocol) {
    || TrimSpace(p.certMode) in {"", "none", "file"}
    || (TrimSpace(p.certMode) in {"self", "dns", "http"} && !Blank(p.sni))
  }

  ghost predicate RealityFits(p: Protocol) {
    !Blank(p.realityPrivateKey) && !Blank(p.realityShortId) && !Blank(p.sni) && 1 <= p.realityServerPort <= 65535
  }

  ghost predicate StreamFits(p: Protocol) {
    && p.transport in {"tcp", "ws", "websocket", "grpc", "httpupgrade", "splithttp", "xhttp"}
    && p.security in {"", "none", "tls", "reality"}
    && (p.security == "tls" ==> TlsFits(p))
    && (p.security == "reality" ==> RealityFits(p))
  }

  ghost predicate EncryptionFits(p: Protocol) {
    || p.encryption in {"", "none"}
    || (p.encryption == "mlkem768x25519plus" && p.mode in {"native", "xorpub", "random"} && !Blank(p.ticket) &&
        !Blank(p.key))
  }

  /** What a protocol has to be, by its type. */
  ghost predicate Fits(p: Protocol) {
    && p.kind in {"vmess", "vless", "trojan", "shadowsocks", "hysteria2", "hysteria", "tuic", "anytls", "mieru"}
    && 1 <= p.port <= 65535
    && (p.kind in {"vmess", "vless", "trojan"} ==> StreamFits(p))
    && (p.kind == "vless" ==> EncryptionFits(p))
    && (p.kind == "shadowsocks" ==> !Blank(p.cipher))
  }

  lemma NotBlank(s: string)
    requires s != "" && !IsSpace(s[0]) && !IsSpace(s[|s| - 1])
    ensures !Blank(s)
  {
    hide IsSpace; hide TrimSpace;
    TrimSpaceKeepsTrimmed(s);
  }

  lemma WordsNotBlank(s: string)
    requires || s in {"vmess", "vless", "trojan", "shadowsocks", "hysteria2", "hysteria", "tuic", "anytls", "mieru"}
             || s in {"tcp", "ws", "websocket", "grpc", "httpupgrade", "splithttp", "xhttp"}
             || s in {"native", "xorpub", "random"}
    ensures !Blank(s)
  {
    NotBlank(s);
  }

  /** The check accepts exactly the disabled protocols and those that are what their type asks for. */
  lemma AcceptedExactly(p: Protocol)
    ensures ValidateProtocol(p).Ok? <==> !p.enable || Fits(p)
  {
    hide Blank; hide TrimSpace;
    if Fits(p) {
      WordsNotBlank(p.kind);
      if p.kind in {"vmess", "vless", "trojan"} {
        WordsNotBlank(p.transport);
      }
      if p.kind == "vless" && p.encryption == METHOD {
        WordsNotBlank(p.mode);
      }
    }
  }

  /** What an error of the check says is wrong. */
  ghost predicate Complains(p: Protocol, error: Error) {
    match error
    case TypeRequired => Blank(p.kind)
    case PortOutOfRange => !Blank(p.kind) && (p.port < 1 || p.port > 65535)
    case UnsupportedType =>
      !Blank(p.kind) &&
      p.kind !in {"vmess", "vless", "trojan", "shadowsocks", "hysteria2", "hysteria", "tuic", "anytls", "mieru"}
    case CipherRequired => p.kind == "shadowsocks" && Blank(p.cipher)
    case TransportRequired => Blank(p.transport)
    case UnsupportedTransport =>
      !Blank(p.transport) &&
      p.transport !in {"tcp", "ws", "websocket", "grpc", "httpupgrade", "splithttp", "xhttp"}
    case UnsupportedSecurity => p.security !in {"", "none", "tls", "reality"}
    case SniRequired => p.security == "tls" && Blank(p.sni)
    case UnsupportedCertMode =>
      p.security == "tls" && TrimSpace(p.certMode) !in {"", "none", "file", "self", "dns", "http"}
    case PrivateKeyRequired => p.security == "reality" && Blank(p.realityPrivateKey)
    case ShortIdRequired => p.security == "reality" && Blank(p.realityShortId)
    case RealitySniRequired => p.security == "reality" && Blank(p.sni)
    case RealityPortOutOfRange =>
      p.security == "reality" && (p.realityServerPort < 1 || p.realityServerPort > 65535)
    case UnsupportedEncryption => p.encryption !in {"", "none", "mlkem768x25519plus"}
    case ModeRequired => Blank(p.mode)
    case UnsupportedMode => !Blank(p.mode) && p.mode !in {"native", "xorpub", "random"}
    case TicketRequired => Blank(p.ticket)
    case KeyRequired => Blank(p.key)
    case _ => false
  }

  /** The error of a refused protocol names something that is wrong with it. */
  lemma ErrorIsTrue(p: Protocol)
    ensures ValidateProtocol(p).Err? ==> p.enable && Complains(p, ValidateProtocol(p).error)
  {
    hide Blank; hide TrimSpace;
  }

  /** A server configuration may be absent, or come without data or without a list of protocols. */
  datatype ServerConfig = NoConfig | NoData | NoProtocols | Protocols(list: seq<Protocol>)

  /** The first protocol of the list that is refused, or the length of the list. */
  ghost predicate StopsAt(list: seq<Protocol>, at: nat) {
    && at <= |list| && (forall i | 0 <= i < at :: ValidateProtocol(list[i]).Ok?)
    && (at < |list| ==> ValidateProtocol(list[at]).Err?)
  }

  /** The check of a server configuration stops at the first protocol that is refused. */
  method ValidateServerConfig(config: ServerConfig) returns (result: Result<()>, at: nat)
    ensures result.Ok? <==>
            config.Protocols? && forall i | 0 <= i < |config.list| :: ValidateProtocol(config.list[i]).Ok?
    ensures config.Protocols? ==> StopsAt(config.list, at)
    ensures config.Protocols? && at < |config.list| ==> result == ValidateProtocol(config.list[at])
  {
    hide ValidateProtocol;
    at := 0;
    match config {
      case NoConfig => result := Err(NoServerConfig);
      case NoData => result := Err(NoServerData);
      case NoProtocols => result := Err(NoProtocolList);
      case Protocols(list) =>
        while at < |list|
          invariant 0 <= at <= |list|
          invariant forall i | 0 <= i < at :: ValidateProtocol(list[i]).Ok?
        {
          result := ValidateProtocol(list[at]);
          if result.Err? {
            return;
          }
          at := at + 1;
        }
        result := Ok(());
    }
  }

  // ---- The ticket ----

  /** A ticket that ends in a digit gets the unit of seconds. */
  function NormalizeTicket(ticket: string): string {
    var t := TrimSpace(ticket);
    if t == "" then ""
    else if '0' <= t[|t| - 1] <= '9' then t + "s"
    else t
  }

  ghost predicate IsNormalTicket(t: string) {
    t == "" || (!IsSpace(t[0]) && !IsSpace(t[|t| - 1]) && !('0' <= t[|t| - 1] <= '9'))
  }

  /** Normalising yields a normal ticket, and a ticket is left alone exactly when it is normal; so normalising twice is
      normalising once. */
  lemma TicketNormalisedExactly(ticket: string)
    ensures IsNormalTicket(NormalizeTicket(ticket))
    ensures NormalizeTicket(ticket) == ticket <==> IsNormalTicket(ticket)
    ensures NormalizeTicket(NormalizeTicket(ticket)) == NormalizeTicket(ticket)
  {
    TicketIsNormal(ticket);
    NormalTicketKept(NormalizeTicket(ticket));
    if IsNormalTicket(ticket) {
      NormalTicketKept(ticket);
    }
  }

  /** However it is padded, a ticket in seconds is one that ends in a digit, and gets the letter for them. */
  lemma TicketUnit(a: string, ticket: string, b: string)
    requires Blanks(a) && Blanks(b) && (ticket != "" ==> !IsSpace(ticket[0]) && !IsSpace(ticket[|ticket| - 1]))
    ensures NormalizeTicket(a + ticket + b) ==
            if ticket != "" && ticket[|ticket| - 1] in "0123456789" then ticket + "s" else ticket
  {
    hide TrimSpace; hide IsSpace;
    TrimPadded(a, ticket, b);
    if ticket != "" {
      DigitsAre(ticket[|ticket| - 1]);
    }
  }

  lemma DigitsAre(c: char)
    ensures c in "0123456789" <==> '0' <= c <= '9'
  {
    var digits := "0123456789";
    if '0' <= c <= '9' {
      assert digits[c as int - '0' as int] == c;
    }
  }

  lemma TicketIsNormal(ticket: string)
    ensures IsNormalTicket(NormalizeTicket(ticket))
  {
    hide TrimSpace;
  }

  lemma NormalTicketKept(t: string)
    requires IsNormalTicket(t)
    ensures NormalizeTicket(t) == t
  {
    hide TrimSpace; hide IsSpace;
    TrimSpaceKeepsTrimmed(t);
  }

  lemma {:induction false} TrimLeftKeepsDots(s: string)
    ensures '.' in TrimLeft(s) <==> '.' in s
  {
    if s != [] && IsSpace(s[0]) {
      TrimLeftKeepsDots(s[1..]);
    }
  }

  lemma {:induction false} TrimRightKeepsDots(s: string)
    ensures '.' in TrimRight(s) <==> '.' in s
  {
    if s != [] && IsSpace(s[|s| - 1]) {
      TrimRightKeepsDots(s[..|s| - 1]);
      assert s == s[..|s| - 1] + [s[|s| - 1]];
    }
  }

  lemma TicketKeepsDots(ticket: string)
    ensures '.' in NormalizeTicket(ticket) <==> '.' in ticket
  {
    hide TrimLeft; hide TrimRight; hide IsSpace;
    TrimLeftKeepsDots(ticket);
    TrimRightKeepsDots(TrimLeft(ticket));
  }

  // ---- The string ----

  function Segments(padding: string): seq<string> {
    if padding == "" then [] else Split(padding, '.')
  }

  function Parts(p: Protocol): seq<string> {
    [METHOD, p.mode] + [NormalizeTicket(p.ticket)] + Segments(p.padding) + [p.key]
  }

  function BuildVlessDecryption(p: Protocol): Result<string> {
    if p.encryption == "" || p.encryption == "none" then Ok("none")
    else if p.encryption == METHOD then Ok(Join(Parts(p), '.'))
    else Err(UnsupportedMethod)
  }

  /** The fields a reader of the string finds between its dots: three at the front, the key at the end, padding
      between. */
  datatype Fields = Fields(encryption: string, mode: string, ticket: string, padding: string, key: string)

  function FieldsOf(parts: seq<string>): Fields
    requires |parts| >= 4
  {
    var n := |parts| - 1;
    Fields(parts[0], parts[1], parts[2], Join(parts[3..n], '.'), parts[n])
  }

  function ReadDecryption(s: string): Result<Fields> {
    var parts := Split(s, '.');
    if |parts| < 4 then Err(TooFewParts) else Ok(FieldsOf(parts))
  }

  /** What was configured, with the ticket normalised. */
  function Configured(p: Protocol): Fields {
    Fields(p.encryption, p.mode, NormalizeTicket(p.ticket), p.padding, p.key)
  }

  lemma SegmentsFreeAndJoined(padding: string)
    ensures FreeOf(Segments(padding), '.') && Join(Segments(padding), '.') == padding
  {
    if padding != "" {
      SplitPartsAreFree(padding, '.');
      JoinUndoesSplit(padding, '.');
    }
  }

  lemma PartsFreeExactly(p: Protocol)
    ensures FreeOf(Parts(p), '.') <==> '.' !in p.mode && '.' !in p.ticket && '.' !in p.key
  {
    hide NormalizeTicket; hide Segments; hide Join;
    SegmentsFreeAndJoined(p.padding);
    TicketKeepsDots(p.ticket);
    var parts, n := Parts(p), |Parts(p)| - 1;
    assert parts[1] == p.mode && parts[2] == NormalizeTicket(p.ticket) && parts[n] == p.key;
    assert parts[3..n] == Segments(p.padding);
    if '.' !in p.mode && '.' !in p.ticket && '.' !in p.key {
      forall i | 0 <= i < |parts| ensures '.' !in parts[i] {
        if 3 <= i < n {
          assert parts[i] == Segments(p.padding)[i - 3];
        }
      }
    }
  }

  lemma PartsGiveFields(p: Protocol)
    requires p.encryption == METHOD
    ensures FieldsOf(Parts(p)) == Configured(p)
  {
    hide NormalizeTicket; hide Segments; hide Join;
    SegmentsFreeAndJoined(p.padding);
    var parts, n := Parts(p), |Parts(p)| - 1;
    assert parts[3..n] == Segments(p.padding);
  }

  /** Reading the printed string gives back every configured field, with the ticket normalised, exactly when mode,
      ticket and key hold no dot. Dots in the padding are harmless. */
  lemma RoundTripsExactly(p: Protocol)
    requires p.encryption == METHOD
    ensures BuildVlessDecryption(p).Ok?
    ensures ReadDecryption(BuildVlessDecryption(p).value) == Ok(Configured(p)) <==>
            '.' !in p.mode && '.' !in p.ticket && '.' !in p.key
  {
    PartsMany(p);
    hide Parts; hide Join; hide NormalizeTicket;
    var s := Join(Parts(p), '.');
    if '.' !in p.mode && '.' !in p.ticket && '.' !in p.key {
      PartsFreeExactly(p);
      PartsGiveFields(p);
      SplitUndoesJoin(Parts(p), '.');
    }
    if ReadDecryption(s) == Ok(Configured(p)) {
      SplitPartsAreFree(s, '.');
      TicketKeepsDots(p.ticket);
      assert Split(s, '.')[1] == p.mode && Split(s, '.')[2] == NormalizeTicket(p.ticket);
    }
  }

  /** Two protocols with dot-free fields are printed alike exactly when they agree on every printed field up to
      normalising the ticket. */
  lemma PrinterInjective(p: Protocol, q: Protocol)
    requires p.encryption == METHOD == q.encryption && '.' !in p.mode && '.' !in q.mode
    requires '.' !in p.ticket && '.' !in p.key && '.' !in q.ticket && '.' !in q.key
    ensures BuildVlessDecryption(p) == BuildVlessDecryption(q) <==> Configured(p) == Configured(q)
  {
    hide ReadDecryption; hide Join; hide NormalizeTicket;
    RoundTripsExactly(p);
    RoundTripsExactly(q);
  }

  lemma {:induction false} JoinAppend(front: seq<string>, back: seq<string>, sep: char)
    requires front != [] && back != []
    ensures Join(front + back, sep) == Join(front, sep) + [sep] + Join(back, sep)
  {
    if |front| == 1 {
      assert (front + back)[1..] == back;
    } else {
      JoinAppend(front[1..], back, sep);
      assert (front + back)[1..] == front[1..] + back;
    }
  }

  lemma JoinSnoc(front: seq<string>, last: string, sep: char)
    requires front != []
    ensures Join(front + [last], sep) == Join(front, sep) + [sep] + last
  {
    JoinAppend(front, [last], sep);
  }

  /** A part with a separator in it joins like its pieces. */
  lemma SplitPartJoinsAlike(front: seq<string>, a: string, b: string, last: string)
    requires front != []
    ensures Join(front + [a + ['.'] + b] + [last], '.') == Join(front + [a] + Split(b, '.') + [last], '.')
  {
    hide Join; hide Split;
    JoinSnoc(front, a, '.');
    JoinSnoc(front, a + ['.'] + b, '.');
    JoinAppend(front + [a], Split(b, '.'), '.');
    JoinUndoesSplit(b, '.');
    var head := Join(front, '.') + ['.'];
    assert head + (a + ['.'] + b) == head + a + ['.'] + b;
    JoinSnoc(front + [a + ['.'] + b], last, '.');
    JoinSnoc(front + [a] + Split(b, '.'), last, '.');
  }

  lemma PrintedParts(p: Protocol)
    requires p.encryption == METHOD
    ensures BuildVlessDecryption(p) == Ok(Join(Parts(p), '.'))
  {
    hide Join; hide Parts;
  }

  /** The string spelled out: method, mode, ticket, the padding if there is any, and the key, with a dot between any
      two. */
  lemma PrintedExactly(p: Protocol)
    requires p.encryption == METHOD
    ensures BuildVlessDecryption(p) ==
            Ok("mlkem768x25519plus" + "." + p.mode + "." + NormalizeTicket(p.ticket) + "." +
               (if p.padding == "" then "" else p.padding + ".") + p.key)
  {
    PrintedParts(p);
    hide BuildVlessDecryption; hide NormalizeTicket; hide Split;
    var t := NormalizeTicket(p.ticket);
    var front := [METHOD, p.mode] + [t];
    assert front[1..][1..] == [t] && front[1..] == [p.mode, t];
    assert Join([t], '.') == t;
    assert Join(front, '.') == METHOD + ['.'] + (p.mode + ['.'] + t);
    hide Join;
    if p.padding == "" {
      assert Parts(p) == front + [p.key];
      JoinSnoc(front, p.key, '.');
      FlattenShort(METHOD, p.mode, t, p.key);
    } else {
      JoinUndoesSplit(p.padding, '.');
      assert Parts(p) == front + Split(p.padding, '.') + [p.key];
      JoinSnoc(front + Split(p.padding, '.'), p.key, '.');
      JoinAppend(front, Split(p.padding, '.'), '.');
      Flatten(METHOD, p.mode, t, p.padding, p.key);
    }
  }

  lemma FlattenShort(a: string, b: string, c: string, e: string)
    ensures a + ['.'] + (b + ['.'] + c) + ['.'] + e == a + "." + b + "." + c + "." + "" + e
  {
  }

  lemma Flatten(a: string, b: string, c: string, d: string, e: string)
    ensures a + ['.'] + (b + ['.'] + c) + ['.'] + d + ['.'] + e == a + "." + b + "." + c + "." + (d + ".") + e
  {
  }

  lemma TwoPartLists(p: Protocol, front: seq<string>)
    requires front == [METHOD, p.mode] && IsNormalTicket(p.ticket)
    ensures p.padding == "" ==> Parts(p) == front + [p.ticket] + [p.key]
    ensures p.padding != "" ==> Parts(p) == front + [p.ticket] + Split(p.padding, '.') + [p.key]
  {
    NormalTicketKept(p.ticket);
    hide NormalizeTicket; hide IsNormalTicket; hide Split;
    assert front + [p.ticket] + [] == front + [p.ticket];
  }

  /** With a dot in the ticket two settings are printed alike: the rest of the ticket passes for padding. */
  lemma DottedTicketCollides(p: Protocol, q: Protocol, rest: string)
    requires p.encryption == METHOD && rest != "" && IsNormalTicket(p.ticket) && IsNormalTicket(p.ticket + ['.'] + rest)
    requires p.padding == rest && q == p.(ticket := p.ticket + ['.'] + rest, padding := "")
    ensures BuildVlessDecryption(p) == BuildVlessDecryption(q)
  {
    PrintedParts(p);
    PrintedParts(q);
    hide BuildVlessDecryption; hide Join; hide Parts; hide IsNormalTicket; hide Split;
    var front := [METHOD, p.mode];
    TwoPartLists(p, front);
    TwoPartLists(q, front);
    SplitPartJoinsAlike(front, p.ticket, rest, p.key);
  }

  lemma {:induction false} JoinOfMoreHasSeparator(parts: seq<string>, sep: char)
    requires |parts| >= 2
    ensures sep in Join(parts, sep)
  {
    assert Join(parts, sep)[|parts[0]|] == sep;
  }

  /** The word for no encryption is printed for no other setting. */
  lemma NoneMeansNone(p: Protocol)
    ensures BuildVlessDecryption(p) == Ok("none") <==> p.encryption == "" || p.encryption == "none"
    ensures BuildVlessDecryption(p).Err? <==> p.encryption !in {"", "none", METHOD}
  {
    hide Parts; hide Join;
    if p.encryption == METHOD {
      PartsMany(p);
      JoinOfMoreHasSeparator(Parts(p), '.');
      assert '.' !in "none";
    }
  }

  lemma PartsMany(p: Protocol)
    ensures |Parts(p)| >= 4
  {
  }

  /** What the server check accepts can be printed: an enabled VLESS protocol of an accepted configuration has no
      encryption, or a string whose mode the library knows and whose ticket and key are not blank. */
  lemma ValidatedIsPrinted(p: Protocol)
    ensures ValidateProtocol(p).Ok? && p.enable && p.kind == "vless" ==>
              && BuildVlessDecryption(p).Ok?
              && (p.encryption !in {"", "none"} ==>
                    p.encryption == METHOD && p.mode in {"native", "xorpub", "random"} && '.' !in p.mode &&
                    NormalizeTicket(p.ticket) != "" && !Blank(p.key))
  {
    hide Join; hide Parts; hide ValidateSecurity; hide TrimSpace;
    if ValidateProtocol(p).Ok? && p.enable && p.kind == "vless" {
      assert ValidateVlessEncryption(p).Ok?;
    }
  }
}
