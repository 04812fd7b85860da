/** The links of a user's connections (core/app/dispatcher/linkmanager.go), how the dispatcher registers them
    (core/app/dispatcher/default.go) and how removing a user closes them (core/user.go). */
module Links {

  /** A link's number ties its writer and its reader together. */
  class Reader {
    ghost const number: nat
    var interrupts: nat

    constructor (ghost number: nat)
      ensures this.number == number && interrupts == 0
    {
      this.number, interrupts := number, 0;
    }

    method Interrupt()
      modifies this
      ensures interrupts == old(interrupts) + 1
    {
      interrupts := interrupts + 1;
    }
  }

  /** A managed writer, with how often the library's writer inside it was closed. */
  class ManagedWriter {
    ghost const number: nat
    ghost const user: string
    ghost const tracked: bool
    const manager: LinkManager
    var closes: nat

    constructor (ghost number: nat, ghost user: string, ghost tracked: bool, manager: LinkManager)
      ensures this.number == number && this.user == user && this.tracked == tracked && this.manager == manager &&
              closes == 0
    {
      this.number, this.user, this.tracked, this.manager, closes := number, user, tracked, manager, 0;
    }

    method Close()
      modifies this, manager
      ensures manager.links == old(manager.links) - {this} && closes == old(closes) + 1
    {
      manager.RemoveWriter(this);
      closes := closes + 1;
    }
  }

  class LinkManager {
    ghost const user: string
    var links: map<ManagedWriter, Reader>

    constructor (ghost user: string)
      ensures this.user == user && links == map[]
    {
      this.user, links := user, map[];
    }

    method AddLink(writer: ManagedWriter, reader: Reader)
      modifies this
      ensures links == old(links)[writer := reader]
    {
      links := links[writer := reader];
    }

    method RemoveWriter(writer: ManagedWriter)
      modifies this
      ensures links == old(links) - {writer}
    {
      links := links - {writer};
    }

    /** The entries left are untouched; the others are closed and interrupted once more than before. */
    ghost predicate Progress(was: map<ManagedWriter, Reader>, closes: map<ManagedWriter, nat>,
                             interrupts: map<ManagedWriter, nat>, left: set<ManagedWriter>)
      requires closes.Keys == was.Keys == interrupts.Keys
      reads this, was.Keys, was.Values
    {
      && links.Keys == left <= was.Keys && (forall w | w in left :: links[w] == was[w])
      && (forall w | w in was :: w.closes == closes[w] + if w in left then 0 else 1)
      && (forall w | w in was :: was[w].interrupts == interrupts[w] + if w in left then 0 else 1)
    }

    /** One visit. */
    method Visit(w: ManagedWriter, ghost was: map<ManagedWriter, Reader>, ghost closes: map<ManagedWriter, nat>,
                 ghost interrupts: map<ManagedWriter, nat>, ghost left: set<ManagedWriter>)
      requires Matched(was, this) && w in left && closes.Keys == was.Keys == interrupts.Keys
      requires Progress(was, closes, interrupts, left)
      modifies this, was.Keys, was.Values
      ensures Progress(was, closes, interrupts, left - {w})
    {
      assert forall v | v in was && was[v] == was[w] :: v == w;
      if w in links {
        var r := links[w];
        w.Close();
        r.Interrupt();
      }
    }

    /** Closing a writer deletes its entry while the entries are being visited. An entry is visited at most once, in any
        order, and not at all if it is gone by then. Still every writer is closed and every reader interrupted, once. */
    method CloseAll()
      requires Matched(links, this)
      modifies this, links.Keys, links.Values
      ensures links == map[]
      ensures forall w | w in old(links) :: w.closes == old(w.closes) + 1
      ensures forall w | w in old(links) :: old(links)[w].interrupts == old(links[w].interrupts) + 1
    {
      ghost var was := links;
      ghost var closes := map w | w in was :: w.closes;
      ghost var interrupts := map w | w in was :: was[w].interrupts;
      var left := links.Keys;
      assert Progress(was, closes, interrupts, left);
      while left != {}
        invariant Progress(was, closes, interrupts, left)
        decreases |left|
      {
        hide Progress; hide Matched;
        var w :| w in left;
        Visit(w, was, closes, interrupts, left);
        left := left - {w};
      }
      assert links.Keys == {};
    }
  }

  /** Every entry is a writer of the manager with its own reader. */
  ghost predicate Matched(links: map<ManagedWriter, Reader>, manager: LinkManager) {
    && (forall w | w in links :: w.manager == manager && links[w].number == w.number)
    && (forall v, w | v in links && w in links && v.number == w.number :: v == w)
  }

  class Dispatcher {
    var linkManagers: map<string, LinkManager>
    ghost var all: set<ManagedWriter>
    ghost var made: nat

    /** Links have numbers of their own, and each user has a manager of their own. */
    ghost predicate Apart()
      reads this
    {
      && (forall w | w in all :: w.number < made)
      && (forall v, w | v in all && w in all && v.number == w.number :: v == w)
      && (forall u | u in linkManagers :: linkManagers[u].user == u)
    }

    /** An entry is an open, tracked link of the manager's user. */
    ghost predicate Entry(lm: LinkManager, w: ManagedWriter)
      reads this, lm, w
    {
      w in all && w.tracked && w.user == lm.user && w.manager == lm && w.closes == 0
      && w in lm.links && lm.links[w].number == w.number
    }

    ghost predicate EntriesGood()
      reads this, linkManagers.Values, all
    {
      forall u, w | u in linkManagers && w in linkManagers[u].links :: w in all && Entry(linkManagers[u], w)
    }

    /** No open, tracked link is without an entry. */
    ghost predicate OpenRegistered()
      reads this, linkManagers.Values, all
    {
      forall w | w in all && w.tracked && w.closes == 0 :: w.user in linkManagers && w in linkManagers[w.user].links
    }

    ghost predicate Valid()
      reads this, linkManagers.Values, all
    {
      Apart() && EntriesGood() && OpenRegistered()
    }

    constructor ()
      ensures Valid() && all == {} && linkManagers == map[]
    {
      linkManagers, all, made := map[], {}, 0;
    }

    /** The user's manager, made on first use. */
    method Manager(user: string) returns (lm: LinkManager)
      requires Valid()
      modifies this`linkManagers
      ensures Valid() && linkManagers == old(linkManagers)[user := lm]
      ensures if user in old(linkManagers) then lm == old(linkManagers[user]) else fresh(lm) && lm.links == map[]
    {
      if user in linkManagers {
        lm := linkManagers[user];
        assert linkManagers == linkManagers[user := lm];
      } else {
        lm := new LinkManager(user);
        linkManagers := linkManagers[user := lm];
      }
    }

    method Register(lm: LinkManager, w: ManagedWriter, reader: Reader)
      requires Valid() && w !in all && w.user in linkManagers && linkManagers[w.user] == lm
      requires w.number == made == reader.number && w.tracked && w.manager == lm && w.closes == 0
      modifies this, lm
      ensures Valid() && linkManagers == old(linkManagers) && all == old(all) + {w}
      ensures lm.links == old(lm.links)[w := reader]
    {
      assert EntriesGood();
      lm.AddLink(w, reader);
      all := all + {w};
      made := made + 1;
      forall u, v | u in linkManagers && v in linkManagers[u].links ensures v in all && Entry(linkManagers[u], v) {
        if v != w {
          assert old(u in linkManagers && v in linkManagers[u].links);
          assert old(v in all && Entry(linkManagers[u], v));
        }
      }
      assert EntriesGood();
    }

    /** The path of Dispatch: the new link is registered with the user's manager, beside the links it has already; the
        managers of other users stay as they are. */
    method GetLink(user: string) returns (w: ManagedWriter)
      requires Valid()
      modifies this, linkManagers.Values
      ensures Valid() && fresh(w) && all == old(all) + {w} && w.user == user && w.tracked && w.closes == 0
      ensures linkManagers.Keys == old(linkManagers.Keys) + {user} && linkManagers[user] == w.manager
      ensures user in old(linkManagers) ==> w.manager == old(linkManagers[user])
      ensures w.manager.links.Keys == {w} + if user in old(linkManagers) then old(linkManagers[user].links.Keys) else {}
      ensures forall u | u in old(linkManagers) && u != user ::
                linkManagers[u] == old(linkManagers[u]) && linkManagers[u].links == old(linkManagers[u].links)
    {
      hide EntriesGood; hide OpenRegistered;
      var lm := Manager(user);
      var reader := new Reader(made);
      w := new ManagedWriter(made, user, true, lm);
      Register(lm, w, reader);
    }

    /** The path of DispatchLink: the link names the user's manager but is not registered with it. */
    method DispatchLink(user: string) returns (w: ManagedWriter)
      requires Valid()
      modifies this
      ensures Valid() && fresh(w) && all == old(all) + {w} && w.user == user && !w.tracked && w.closes == 0
      ensures linkManagers == old(linkManagers)[user := w.manager]
      ensures if user in old(linkManagers) then w.manager == old(linkManagers[user])
              else fresh(w.manager) && w.manager.links == map[]
    {
      var lm := Manager(user);
      w := new ManagedWriter(made, user, false, lm);
      all := all + {w};
      made := made + 1;
    }

    /** A connection closes its own link. */
    method CloseLink(w: ManagedWriter)
      requires Valid() && w in all
      modifies w, w.manager
      ensures Valid() && w.closes == old(w.closes) + 1 && w.manager.links == old(w.manager.links) - {w}
    {
      w.Close();
    }

    method CloseLinksOf(user: string)
      requires Valid() && user in linkManagers
      modifies linkManagers[user], linkManagers[user].links.Keys, linkManagers[user].links.Values
      ensures EntriesGood() && linkManagers[user].links == map[]
      ensures forall w | w in old(linkManagers[user].links) :: w.closes == old(w.closes) + 1
    {
      hide OpenRegistered;
      var lm := linkManagers[user];
      assert forall w | w in lm.links :: w in all && Entry(lm, w);
      lm.CloseAll();
      forall u, w | u in linkManagers && w in linkManagers[u].links ensures w in all && Entry(linkManagers[u], w) {
        assert linkManagers[u].user == u && linkManagers[u] != lm;
        assert old(u in linkManagers && w in linkManagers[u].links);
        assert old(w in all && Entry(linkManagers[u], w));
        assert w !in old(lm.links);
      }
    }

    /** Forgets a manager without entries. */
    method DropManager(user: string)
      requires Apart() && EntriesGood() && user in linkManagers
      modifies this`linkManagers
      ensures Apart() && EntriesGood() && linkManagers == old(linkManagers) - {user}
    {
      linkManagers := linkManagers - {user};
      forall u, w | u in linkManagers && w in linkManagers[u].links ensures w in all && Entry(linkManagers[u], w) {
        assert old(u in linkManagers && w in linkManagers[u].links);
        assert old(w in all && Entry(linkManagers[u], w));
      }
    }

    /** Open, tracked links of a user are exactly the user's entries. */
    lemma EntriesAreOpenLinks(user: string, w: ManagedWriter)
      requires Valid() && w in all
      ensures user in linkManagers && w in linkManagers[user].links <==> w.user == user && w.tracked && w.closes == 0
    {
      if user in linkManagers && w in linkManagers[user].links {
        assert Entry(linkManagers[user], w);
      }
    }

    /** Without open, tracked links of a user the others' registrations are all there is to it. */
    lemma NoneOpen(user: string)
      requires forall w | w in all && w.tracked && w.closes == 0 && w.user != user ::
                 w.user in linkManagers && w in linkManagers[w.user].links
      requires forall w | w in all && w.user == user && w.tracked :: w.closes > 0
      ensures OpenRegistered()
    {
    }

    /** What removing a user does to the user's links. It closes every open registered link once, touches no other link,
        and forgets the manager. So no link of the user stays open exactly if none of the open ones came through
        DispatchLink. */
    method Kick(user: string)
      requires Valid()
      modifies this`linkManagers, if user in linkManagers then {linkManagers[user]} else {},
               if user in linkManagers then linkManagers[user].links.Keys else {},
               if user in linkManagers then linkManagers[user].links.Values else {}
      ensures Valid() && linkManagers == old(linkManagers) - {user}
      ensures forall w | w in all ::
                w.closes == old(w.closes) + if w.user == user && w.tracked && old(w.closes) == 0 then 1 else 0
      ensures (forall w | w in all && w.user == user :: w.closes > 0) <==>
              (forall w | w in all && w.user == user && old(w.closes) == 0 :: w.tracked)
    {
      forall w | w in all {
        EntriesAreOpenLinks(user, w);
      }
      if user in linkManagers {
        CloseLinksOf(user);
        DropManager(user);
        NoneOpen(user);
      }
    }
  }
}
