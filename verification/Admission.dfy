/** Which node types can serve users: what the check of the server configuration accepts (core/validate.go) against what
    the user registry takes (core/user.go). */
module Admission {
  import opened Panel
  import opened UserRegistry
  import Vless

  /** The types of nodes whose users the core registers; Mieru nodes keep their own. */
  ghost predicate ServedByCore(kind: string) {
    kind in {"vmess", "vless", "trojan", "shadowsocks", "hysteria2", "hysteria", "tuic", "anytls"}
  }

  /** An enabled protocol of the type that the check accepts. */
  ghost predicate Accepted(p: Vless.Protocol, kind: string) {
    p.enable && p.kind == kind && Vless.ValidateProtocol(p).Ok?
  }

  /** The users of every protocol that passed the check can be added: with the inbound there and a user manager that
      does not refuse, the call succeeds and all of them can authenticate, beside those who could before. */
  lemma ValidatedTakesUsers(p: Vless.Protocol, r: Registry, tag: string, users: seq<UserInfo>, accepts: nat)
    requires Accepted(p, p.kind) && p.kind != "mieru" && tag in r.managers && accepts >= |users|
    ensures AddUsersOk(r, tag, p.kind, users, accepts)
    ensures var r' := ApplyAll(r, AddUsersOps(r, tag, p.kind, users, accepts));
            tag in r'.managers && r'.managers[tag] == r.managers[tag] + Emails(tag, users)
  {
    AcceptedIsServed(p);
    hide Accepted; hide ApplyAll; hide Emails; hide UidMapOf; hide UidOps; hide ManagerOps;
    assert users[..Min(accepts, |users|)] == users;
    AddUsersEffect(r, tag, users, users);
  }

  lemma AcceptedIsServed(p: Vless.Protocol)
    requires Accepted(p, p.kind) && p.kind != "mieru"
    ensures ServedByCore(p.kind)
  {
    Vless.AcceptedExactly(p);
    hide Vless.ValidateProtocol; hide Vless.StreamFits; hide Vless.EncryptionFits; hide Vless.Blank;
  }

  /** A plain protocol of some type. */
  ghost predicate Plain(p: Vless.Protocol) {
    && p.enable && p.port == 443 && p.cipher == "aes-128-gcm" && p.transport == "tcp" && p.security == ""
    && p.encryption == ""
  }

  lemma PlainAccepted(p: Vless.Protocol)
    requires Plain(p) && (ServedByCore(p.kind) || p.kind == "mieru")
    ensures Accepted(p, p.kind)
  {
    hide Vless.ValidateProtocol; hide Vless.Blank; hide Vless.TlsFits; hide Vless.RealityFits;
    hide Vless.EncryptionFits;
    Vless.NotBlank(p.cipher);
    Vless.AcceptedExactly(p);
    assert Vless.EncryptionFits(p) by { Unencrypted(p); }
  }

  lemma Unencrypted(p: Vless.Protocol)
    requires p.encryption == ""
    ensures Vless.EncryptionFits(p)
  {
    hide Vless.Blank;
  }

  lemma Sample(kind: string) returns (p: Vless.Protocol)
    ensures Plain(p) && p.kind == kind
  {
    p := Vless.Protocol(kind, true, 443, "aes-128-gcm", "tcp", "", "", "", "", "", 0, "", "", "", "", "");
  }

  lemma EmptyListAdded(kind: string)
    requires ServedByCore(kind)
    ensures AddUsersOk(Registry(map["" := {}], map[], map[], {}), "", kind, [], 0)
  {
  }

  /** Types that take users, types that the check accepts short of Mieru, and the eight names are the same. So the users
      of Mieru nodes and of unknown types are refused whatever the user manager says. */
  lemma TakesUsersExactly(kind: string)
    ensures ServedByCore(kind) <==>
            exists r: Registry, tag: string, users: seq<UserInfo>, accepts: nat ::
              AddUsersOk(r, tag, kind, users, accepts)
    ensures ServedByCore(kind) <==> kind != "mieru" && exists p: Vless.Protocol :: Accepted(p, kind)
  {
    hide Vless.ValidateProtocol; hide Vless.Blank; hide Plain;
    if ServedByCore(kind) {
      var p := Sample(kind);
      PlainAccepted(p);
      EmptyListAdded(kind);
    }
    if p: Vless.Protocol :| Accepted(p, kind) {
      Vless.AcceptedExactly(p);
    }
  }
}
