/** The in-memory store of gateway keys and access tokens (auth/memory_auth.go). */
module MemoryAuth {
  type Id = string

  /** A token without expiry never expires. */
  datatype Expiry = Never | At(time: int)

  datatype Credentials = Credentials(key: string, token: string, expires: Expiry)

  type Store = map<Id, Credentials>

  /** What the account server answers when a key is offered for a token. */
  datatype TokenAnswer = Granted(token: string, expires: Expiry) | Refused

  datatype TokenResult = Token(token: string) | GatewayNotFound | NoValidToken | ExchangeFailed

  function WithToken(s: Store, id: Id, token: string, expires: Expiry): Store {
    s[id := Credentials(if id in s then s[id].key else "", token, expires)]
  }

  function WithKey(s: Store, id: Id, key: string): Store {
    s[id := if id in s then s[id].(key := key) else Credentials(key, "", Never)]
  }

  predicate Accepts(s: Store, id: Id, key: string) {
    id !in s || s[id].key == key
  }

  predicate HasLiveToken(c: Credentials, now: int) {
    c.token != "" && (c.expires.Never? || c.expires.time > now)
  }

  /** GetToken at time now; exchanger is absent or answers as given. */
  function Refresh(s: Store, id: Id, now: int, exchanger: bool, answer: TokenAnswer): (Store, TokenResult) {
    if id !in s then (s, GatewayNotFound)
    else if HasLiveToken(s[id], now) then (s, Token(s[id].token))
    else if s[id].key != "" && exchanger then
      match answer
      case Refused => (s, ExchangeFailed)
      case Granted(token, expires) => (s[id := s[id].(token := token, expires := expires)], Token(token))
    else (s, NoValidToken)
  }

  /** The key a gateway must show, if any was ever set. */
  datatype KeyOnFile = NoKey | Key(key: string)

  function KeyOf(s: Store, id: Id): KeyOnFile {
    if id in s then Key(s[id].key) else NoKey
  }

  /** Fetching a token never touches a key, and never makes a gateway known or unknown. */
  lemma RefreshKeepsKeys(s: Store, id: Id, now: int, exchanger: bool, answer: TokenAnswer)
    ensures var s' := Refresh(s, id, now, exchanger, answer).0;
            s'.Keys == s.Keys && forall i :: KeyOf(s', i) == KeyOf(s, i)
  {
  }

  /** A token that GetToken returns is live, or fresh from the account server for the stored key. */
  lemma RefreshedTokenIsGood(s: Store, id: Id, now: int, exchanger: bool, answer: TokenAnswer)
    ensures var (s', r) := Refresh(s, id, now, exchanger, answer);
            r.Token? ==> id in s' && s'[id].token == r.token
                         && (HasLiveToken(s[id], now) || (exchanger && s[id].key != "" && answer.Granted?))
  {
  }

  /** Every outcome: a token is live if there is one and it never expires or expires later than now. */
  lemma EveryRefresh(s: Store, id: Id, now: int, exchanger: bool, answer: TokenAnswer)
    ensures var (s', r) := Refresh(s, id, now, exchanger, answer);
            if id !in s then r == GatewayNotFound && s' == s
            else
              var live := s[id].token != "" && (s[id].expires.Never? || now < s[id].expires.time);
              if live then r == Token(s[id].token) && s' == s
              else if s[id].key == "" || !exchanger then r == NoValidToken && s' == s
              else if answer.Refused? then r == ExchangeFailed && s' == s
              else r == Token(answer.token) && s' == s[id := Credentials(s[id].key, answer.token, answer.expires)]
  {
  }

  /** A token that was set is what GetToken returns until it expires, also when a key is set in between. */
  lemma SetTokenLasts(s: Store, id: Id, token: string, expires: Expiry, key: string, now: int, exchanger: bool, answer: TokenAnswer)
    requires token != "" && (expires.Never? || now < expires.time)
    ensures var t := WithToken(s, id, token, expires);
            && Refresh(t, id, now, exchanger, answer) == (t, Token(token))
            && Refresh(WithKey(t, id, key), id, now, exchanger, answer) == (WithKey(t, id, key), Token(token))
            && forall i | i != id :: (i in t <==> i in s) && (i in s ==> t[i] == s[i] && WithKey(t, id, key)[i] == s[i])
  {
  }

  /** From the moment it expires it is not returned any more, but exchanged for another one or missed. */
  lemma SetTokenExpires(s: Store, id: Id, token: string, expires: int, now: int, exchanger: bool, answer: TokenAnswer)
    requires expires <= now
    ensures var t := WithToken(s, id, token, At(expires));
            var r := Refresh(t, id, now, exchanger, answer).1;
            r == if id !in s || s[id].key == "" || !exchanger then NoValidToken
                 else if answer.Refused? then ExchangeFailed else Token(answer.token)
  {
  }

  class Memory {
    var gateways: Store

    constructor ()
      ensures gateways == map[]
    {
      gateways := map[];
    }

    method SetToken(id: Id, token: string, expires: Expiry)
      modifies this
      ensures gateways == WithToken(old(gateways), id, token, expires)
      ensures forall i | i != id || id in old(gateways) :: KeyOf(gateways, i) == KeyOf(old(gateways), i)
      ensures id !in old(gateways) ==> KeyOf(gateways, id) == Key("")
    {
      if id in gateways {
        gateways := gateways[id := gateways[id].(token := token, expires := expires)];
      } else {
        gateways := gateways[id := Credentials("", token, expires)];
      }
    }

    method SetKey(id: Id, key: string)
      modifies this
      ensures gateways == WithKey(old(gateways), id, key)
      ensures KeyOf(gateways, id) == Key(key) && Accepts(gateways, id, key)
      ensures forall i | i != id :: KeyOf(gateways, i) == KeyOf(old(gateways), i)
    {
      if id in gateways {
        gateways := gateways[id := gateways[id].(key := key)];
      } else {
        gateways := gateways[id := Credentials(key, "", Never)];
      }
    }

    method ValidateKey(id: Id, key: string) returns (valid: bool)
      ensures valid <==> KeyOf(gateways, id) == NoKey || KeyOf(gateways, id) == Key(key)
    {
      if id in gateways {
        if gateways[id].key == key {
          return true;
        }
      } else {
        return true;
      }
      return false;
    }

    method Delete(id: Id)
      modifies this
      ensures KeyOf(gateways, id) == NoKey
      ensures gateways == map i | i in old(gateways) && i != id :: old(gateways)[i]
    {
      gateways := gateways - {id};
    }

    method GetToken(id: Id, now: int, exchanger: bool, answer: TokenAnswer) returns (r: TokenResult)
      modifies this
      ensures (gateways, r) == Refresh(old(gateways), id, now, exchanger, answer)
      ensures forall i :: KeyOf(gateways, i) == KeyOf(old(gateways), i)
    {
      if id !in gateways {
        return GatewayNotFound;
      }
      var c := gateways[id];
      if c.token != "" && (c.expires.Never? || c.expires.time > now) {
        return Token(c.token);
      }
      if c.key != "" && exchanger {
        match answer {
          case Refused =>
            return ExchangeFailed;
          case Granted(token, expires) =>
            gateways := gateways[id := c.(token := token, expires := expires)];
            return Token(token);
        }
      }
      return NoValidToken;
    }
  }
}
