/** Users by id: get searches the list by text, delete parses the text to a number. */
module Users {
  import opened Machine
  import opened Wrappers
  import opened Upstream
  import Decimal

  /** What of a user's rendering depends on the id. */
  datatype TailscaleUser = TailscaleUser(id: string, loginName: string)

  datatype Response = Error(status: nat) | Listed(users: seq<TailscaleUser>) | Shown(user: TailscaleUser) | Deleted

  function UserToTailscaleUser(u: User): TailscaleUser {
    TailscaleUser(Decimal.Format(u.id), u.name)
  }

  function UserIds(users: seq<User>): seq<UInt64> {
    seq(|users|, i requires 0 <= i < |users| => users[i].id)
  }

  /** DeleteUser on headscale. */
  function DropById(s: Server, id: UInt64): (Server, Result<(), Code>) {
    if UserById(s.users, id).None? then (s, Failure(NotFound)) else (Administer(s, RemoveUser(id)), Success(()))
  }

  /** GET /users/{userId}. */
  function Got(s: Server, raw: string, f: Fault): Response {
    if !f.Fine? then Error(HttpStatus(f.code))
    else match Decimal.FindText(UserIds(s.users), raw)
      case None => Error(404)
      case Some(i) => Shown(UserToTailscaleUser(s.users[i]))
  }

  /** POST /users/{userId}/delete. */
  function Dropped(s: Server, raw: string, f: Fault): (Server, Response) {
    match Decimal.Parse(raw)
    case None => (s, Error(400))
    case Some(id) =>
      var (s', answer) := Faulty(s, DropById(s, id), f);
      (s', if answer.Success? then Deleted else Error(HttpStatus(answer.error)))
  }

  /** Every listed id addresses exactly the user it was listed with, in get and in delete alike. */
  lemma ListedIsAddressed(s: Server, i: nat)
    requires Sane(s) && i < |s.users|
    ensures var u := TailscaleUser(Decimal.Format(s.users[i].id), s.users[i].name);
            && Got(s, u.id, Fine) == Shown(u)
            && (var (s', resp) := Dropped(s, u.id, Fine);
                resp == Deleted && forall v :: v in s'.users <==> v in s.users && v != s.users[i])
  {
    var ids, u := UserIds(s.users), s.users[i];
    Decimal.ParseFormat(u.id);
    assert ids[i] == u.id;
    assert u in s.users;
    var found := Decimal.FindText(ids, Decimal.Format(u.id)).value;
    Decimal.FormatInjective(ids[found], u.id);
    assert found == i;
    forall v | v in s.users && v.id == u.id ensures v == u {
      var j :| 0 <= j < |s.users| && s.users[j] == v;
      assert j == i;
    }
  }

  /** Whatever get finds, delete under the same text removes. The two disagree exactly on texts that parse to the id
      of a user without being written as ids are shown. */
  lemma GetDeleteAgree(s: Server, raw: string)
    ensures var got, dropped := Got(s, raw, Fine).Shown?, Dropped(s, raw, Fine).1.Deleted?;
            var names := exists u :: u in s.users && Decimal.Parse(raw) == Some(u.id);
            && (dropped <==> names)
            && (got <==> names && Decimal.Canonical(raw))
            && ((got <==> dropped) <==> !names || Decimal.Canonical(raw))
            && (!got ==> Got(s, raw, Fine) == Error(404))
            && (!dropped ==> Dropped(s, raw, Fine) == (s, Error(if Decimal.Parse(raw).None? then 400 else 404)))
  {
    var ids := UserIds(s.users);
    hide Decimal.Canonical;
    Decimal.FindTextIsFindId(ids, raw);
    match Decimal.Parse(raw)
    case None =>
      forall j | 0 <= j < |ids| ensures Decimal.Format(ids[j]) != raw {
        Decimal.ParseIsFormat(raw, ids[j]);
      }
    case Some(id) =>
      KnownNumber(s.users, id);
      forall j | 0 <= j < |ids| {
        Decimal.ParseIsFormat(raw, ids[j]);
      }
  }

  lemma KnownNumber(users: seq<User>, id: UInt64)
    ensures Decimal.FindId(UserIds(users), id).Some? <==> UserById(users, id).Some?
  {
    var ids := UserIds(users);
    forall u | u in users ensures u.id in ids {
      var j :| 0 <= j < |users| && users[j] == u;
      assert ids[j] == u.id;
    }
    forall j | 0 <= j < |ids| ensures users[j] in users && ids[j] == users[j].id {
    }
  }

  /** Under a failing call both report its status, but delete looks at its path first; only where the reply alone was
      lost is the user gone all the same. */
  lemma Refused(s: Server, raw: string, f: Fault)
    requires !f.Fine?
    ensures Got(s, raw, f).Error? && SeenAs(f.code, Got(s, raw, f).status)
    ensures var (s', resp) := Dropped(s, raw, f);
            && resp.Error? && (if Decimal.Parse(raw).None? then resp.status == 400 else SeenAs(f.code, resp.status))
            && s' == if f.Lost? then s else Dropped(s, raw, Fine).0
  {
    var id := Decimal.Parse(raw);
    if id.Some? {
      assert f.Lost? || Faulty(s, DropById(s, id.value), f).0 == Faulty(s, DropById(s, id.value), Fine).0;
    }
  }

  /** 007 is nobody to get, and user 7 to delete. */
  lemma PaddedId(s: Server, name: string)
    requires s.users == [User(7, name)]
    ensures Got(s, "007", Fine) == Error(404)
    ensures Dropped(s, "007", Fine).1 == Deleted && Dropped(s, "007", Fine).0.users == []
  {
    assert Decimal.Value("007") == 7 by {
      assert "007"[..2] == "00" && "00"[..1] == "0" && "0"[..0] == "";
      assert Decimal.Value("0") == 0;
      assert Decimal.Value("00") == 0;
    }
    assert UserIds(s.users) == [7];
    assert Decimal.Format(7) == "7";
    assert Decimal.FindText([7], "007") == None;
    assert Decimal.Parse("007") == Some(7);
    assert UserById(s.users, 7) == Some(User(7, name));
    assert s.users[1..] == [] && DropUser(s.users[1..], 7) == [];
  }

  /** translate.FindUserByID. */
  method FindUserByID(users: seq<User>, id: string) returns (r: Option<User>)
    ensures r == match Decimal.FindText(UserIds(users), id) case None => None case Some(i) => Some(users[i])
  {
    hide Decimal.Format;
    hide Decimal.FindText;
    ghost var ids := UserIds(users);
    for i := 0 to |users|
      invariant forall j :: 0 <= j < i ==> Decimal.Format(users[j].id) != id
    {
      if Decimal.Format(users[i].id) == id {
        Decimal.FirstText(ids, id, i);
        return Some(users[i]);
      }
    }
    r := None;
  }

  class UsersHandler {
    var srv: Server

    constructor (srv: Server)
      ensures this.srv == srv
    {
      this.srv := srv;
    }

    method ListUsers(f: Fault) returns (resp: Response)
      ensures !f.Fine? ==> resp == Error(HttpStatus(f.code))
      ensures f.Fine? ==> resp.Listed? && |resp.users| == |srv.users|
                          && forall i :: 0 <= i < |srv.users| ==>
                               resp.users[i] == TailscaleUser(Decimal.Format(srv.users[i].id), srv.users[i].name)
    {
      var users := Upstream.ListUsers(srv, f);
      if users.Failure? {
        return Error(HttpStatus(users.error));
      }
      var result := [];
      for i := 0 to |users.value|
        invariant |result| == i && forall j :: 0 <= j < i ==> result[j] == UserToTailscaleUser(users.value[j])
      {
        result := result + [UserToTailscaleUser(users.value[i])];
      }
      resp := Listed(result);
    }

    method GetUser(userID: string, f: Fault) returns (resp: Response)
      ensures resp == Got(srv, userID, f)
    {
      var users := Upstream.ListUsers(srv, f);
      if users.Failure? {
        return Error(HttpStatus(users.error));
      }
      var u := FindUserByID(users.value, userID);
      if u.None? {
        return Error(404);
      }
      resp := Shown(UserToTailscaleUser(u.value));
    }

    method DeleteUser(userID: string, f: Fault) returns (resp: Response)
      modifies this
      ensures (srv, resp) == Dropped(old(srv), userID, f)
    {
      var id := Decimal.Parse(userID);
      if id.None? {
        return Error(400);
      }
      var (srv', answer) := Faulty(srv, DropById(srv, id.value), f);
      srv := srv';
      resp := if answer.Failure? then Error(HttpStatus(answer.error)) else Deleted;
    }
  }
}
