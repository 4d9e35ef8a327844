/** The auth-key endpoints as the sequential code runs them, each proved to do what its request automaton does. */
module KeysHandlers {
  import opened Machine
  import opened Wrappers
  import opened Upstream
  import opened Translate
  import opened KeyRequests
  import Decimal

  /** The gRPC client. srv is the server behind it; f is what becomes of the call. */
  class GRPCClient {
    var srv: Server

    constructor (srv: Server)
      ensures this.srv == srv
    {
      this.srv := srv;
    }

    method ListUsers(f: Fault) returns (r: Result<seq<User>, Code>)
      ensures r == Upstream.ListUsers(srv, f)
    {
      r := Upstream.ListUsers(srv, f);
    }

    /** Keeps, in order, the keys of the named user; the empty name keeps all. */
    method ListPreAuthKeys(user: string, f: Fault) returns (r: Result<seq<PreAuthKey>, Code>)
      ensures r == match ListAllKeys(srv, f)
                   case Failure(code) => Failure(code)
                   case Success(keys) => Success(FilterKeys(keys, user))
    {
      var resp := ListAllKeys(srv, f);
      if resp.Failure? || user == "" {
        return resp;
      }
      var keys := resp.value;
      var filtered := [];
      for i := 0 to |keys|
        invariant filtered == OwnedKeys(keys[..i], user)
      {
        assert keys[..i + 1][..i] == keys[..i];
        if keys[i].user.Some? && keys[i].user.value.name == user {
          filtered := filtered + [keys[i]];
        }
      }
      assert keys[..|keys|] == keys;
      r := Success(filtered);
    }

    method CreatePreAuthKey(req: CreateRequest, f: Fault, secret: string) returns (r: Result<PreAuthKey, Code>)
      modifies this
      ensures (srv, r) == Faulty(old(srv), Upstream.Create(old(srv), req, secret), f)
    {
      var (srv', answer) := Faulty(srv, Upstream.Create(srv, req, secret), f);
      srv, r := srv', answer;
    }

    method ExpirePreAuthKey(id: UInt64, f: Fault) returns (r: Result<(), Code>)
      modifies this
      ensures (srv, r) == Faulty(old(srv), Upstream.Expire(old(srv), id), f)
    {
      var (srv', answer) := Faulty(srv, Upstream.Expire(srv, id), f);
      srv, r := srv', answer;
    }

    method DeletePreAuthKey(id: UInt64, f: Fault) returns (r: Result<(), Code>)
      modifies this
      ensures (srv, r) == Faulty(old(srv), Upstream.Delete(old(srv), id), f)
    {
      var (srv', answer) := Faulty(srv, Upstream.Delete(srv, id), f);
      srv, r := srv', answer;
    }
  }

  /** findKeyByID: the first key listed whose id is written so. */
  method FindListed(keys: seq<PreAuthKey>, id: string) returns (r: Option<PreAuthKey>)
    ensures r == FindKeyByID(keys, id)
    ensures r.Some? ==> exists i :: 0 <= i < |keys| && keys[i] == r.value && Decimal.Format(keys[i].id) == id
                                    && forall j :: 0 <= j < i ==> Decimal.Format(keys[j].id) != id
    ensures r.None? ==> forall j :: 0 <= j < |keys| ==> Decimal.Format(keys[j].id) != id
  {
    hide Decimal.Format;
    hide Decimal.FindText;
    ghost var ids := IdSeq(keys);
    for i := 0 to |keys|
      invariant forall j :: 0 <= j < i ==> Decimal.Format(keys[j].id) != id
    {
      if Decimal.Format(keys[i].id) == id {
        Decimal.FirstText(ids, id, i);
        return Some(keys[i]);
      }
    }
    r := None;
  }

  class KeysHandler {
    const hs: GRPCClient
    const tailnetName: string

    constructor (hs: GRPCClient, tailnetName: string)
      ensures this.hs == hs && this.tailnetName == tailnetName
    {
      this.hs := hs;
      this.tailnetName := tailnetName;
    }

    method ResolveTailnetUser(tailnet: string, f: Fault) returns (r: Result<User, nat>)
      ensures r == match Upstream.ListUsers(hs.srv, f)
                   case Failure(code) => Failure(HttpStatus(code))
                   case Success(users) => Resolve(tailnetName, tailnet, users)
    {
      var listed := hs.ListUsers(f);
      if listed.Failure? {
        return Failure(HttpStatus(listed.error));
      }
      var users := listed.value;
      if |users| == 0 {
        return Failure(404);
      }
      var resolved := tailnet;
      if resolved == "-" {
        resolved := tailnetName;
      }
      if resolved == "-" {
        if |users| != 1 {
          return Failure(400);
        }
        return Success(users[0]);
      }
      if tailnetName != "-" && tailnet != "-" && tailnet != tailnetName {
        return Failure(404);
      }
      for i := 0 to |users|
        invariant UserByName(users, resolved) == UserByName(users[i..], resolved)
      {
        assert users[i..][1..] == users[i + 1..];
        if users[i].name == resolved {
          return Success(users[i]);
        }
      }
      r := Failure(404);
    }

    /** The user and the keys that list, get and delete start from. */
    method Listing(tailnet: string, f0: Fault, f1: Fault) returns (r: Result<(User, seq<PreAuthKey>), nat>)
      ensures r == Front(tailnetName, hs.srv, tailnet, f0, f1)
    {
      var user := ResolveTailnetUser(tailnet, f0);
      if user.Failure? {
        return Failure(user.error);
      }
      var keys := hs.ListPreAuthKeys(user.value.name, f1);
      if keys.Failure? {
        return Failure(HttpStatus(keys.error));
      }
      r := Success((user.value, keys.value));
    }

    method ListKeys(tailnet: string, faults: nat -> Fault) returns (resp: Response)
      ensures (hs.srv, resp) == Solo(tailnetName, hs.srv, Request(List, tailnet), Start, faults, 0, "")
    {
      FrontIsSolo(tailnetName, hs.srv, Request(List, tailnet), faults, "");
      var front := Listing(tailnet, faults(0), faults(1));
      if front.Failure? {
        return Error(front.error);
      }
      var keys := front.value.1;
      var result := [];
      for i := 0 to |keys|
        invariant |result| == i && forall j :: 0 <= j < i ==> result[j] == PreAuthKeyToKey(keys[j])
      {
        result := result + [PreAuthKeyToKey(keys[i])];
      }
      assert result == ToKeys(keys);
      resp := Listed(result);
    }

    method GetKey(tailnet: string, keyID: string, faults: nat -> Fault) returns (resp: Response)
      ensures (hs.srv, resp) == Solo(tailnetName, hs.srv, Request(Get(keyID), tailnet), Start, faults, 0, "")
    {
      FrontIsSolo(tailnetName, hs.srv, Request(Get(keyID), tailnet), faults, "");
      var front := Listing(tailnet, faults(0), faults(1));
      if front.Failure? {
        return Error(front.error);
      }
      var key := FindListed(front.value.1, keyID);
      if key.None? {
        return Error(404);
      }
      resp := Shown(PreAuthKeyToKey(key.value));
    }

    method CreateKey(tailnet: string, body: Option<CreateKeyRequest>, faults: nat -> Fault, secret: string)
      returns (resp: Response)
      modifies hs
      ensures (hs.srv, resp)
              == Solo(tailnetName, old(hs.srv), Request(Op.Create(body), tailnet), Start, faults, 0, secret)
    {
      ghost var req := Request(Op.Create(body), tailnet);
      SoloStep(tailnetName, hs.srv, req, Start, faults, 0, secret);
      var user := ResolveTailnetUser(tailnet, faults(0));
      if user.Failure? {
        return Error(user.error);
      }
      SoloStep(tailnetName, hs.srv, req, Resolved(user.value), faults, 1, secret);
      if body.None? {
        return Error(400);
      }
      var protoReq := KeyRequestToCreatePreAuthKeyRequest(body.value, user.value.id, hs.srv.clock);
      SoloStep(tailnetName, hs.srv, req, ToCreate(user.value, protoReq), faults, 2, secret);
      var key := hs.CreatePreAuthKey(protoReq, faults(2), secret);
      if key.Failure? {
        return Error(HttpStatus(key.error));
      }
      resp := Shown(PreAuthKeyToKey(key.value));
    }

    /** Expire, then delete. */
    method DeleteKey(tailnet: string, keyID: string, faults: nat -> Fault) returns (resp: Response)
      modifies hs
      ensures (hs.srv, resp) == Solo(tailnetName, old(hs.srv), Request(Op.Delete(keyID), tailnet), Start, faults, 0, "")
    {
      hide Front;
      hide FindKeyByID;
      hide Upstream.Expire;
      hide Upstream.Delete;
      ghost var req := Request(Op.Delete(keyID), tailnet);
      FrontIsSolo(tailnetName, hs.srv, req, faults, "");
      var front := Listing(tailnet, faults(0), faults(1));
      if front.Failure? {
        return Error(front.error);
      }
      var user, keys := front.value.0, front.value.1;
      var key := FindListed(keys, keyID);
      if key.None? {
        return Error(404);
      }
      SoloStep(tailnetName, hs.srv, req, ToExpire(user, key.value.id), faults, 2, "");
      var expired := hs.ExpirePreAuthKey(key.value.id, faults(2));
      if expired.Failure? {
        return Error(HttpStatus(expired.error));
      }
      SoloStep(tailnetName, hs.srv, req, ToDelete(user, key.value.id), faults, 3, "");
      var deleted := hs.DeletePreAuthKey(key.value.id, faults(3));
      if deleted.Failure? {
        return Error(HttpStatus(deleted.error));
      }
      resp := Deleted;
    }
  }
}
