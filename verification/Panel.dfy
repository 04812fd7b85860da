/** Records exchanged with the panel. */
module Panel {
  import opened Text

  datatype UserInfo = UserInfo(id: int, uuid: string, speedLimit: int, deviceLimit: int)

  datatype UserTraffic = UserTraffic(uid: int, upload: int, download: int)

  datatype OnlineUser = OnlineUser(uid: int, ip: string)

  /** Registry keys, uuids and ids of a list of users. */
  ghost function Emails(tag: string, users: seq<UserInfo>): set<string> {
    set u | u in users :: UserTag(tag, u.uuid)
  }

  ghost function Uuids(users: seq<UserInfo>): set<string> {
    set u | u in users :: u.uuid
  }

  ghost function Ids(users: seq<UserInfo>): set<int> {
    set u | u in users :: u.id
  }

  lemma SetsSnoc(tag: string, users: seq<UserInfo>, u: UserInfo)
    ensures Emails(tag, users + [u]) == Emails(tag, users) + {UserTag(tag, u.uuid)}
    ensures Uuids(users + [u]) == Uuids(users) + {u.uuid}
    ensures Ids(users + [u]) == Ids(users) + {u.id}
  {
    hide UserTag;
    assert u in users + [u];
  }
}
