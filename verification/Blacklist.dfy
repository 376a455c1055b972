/**
  The blacklist (middleware/blacklist/blacklist.go): lists come and go by location, two indexes are
  rebuilt after every load, and a check of the indexes is a scan of all current lists.
 */
module Blacklist {

  /** An empty gateway or IP says nothing. */
  datatype Item = Item(gateway: string, ip: string)

  type Lists = map<string, seq<Item>>

  /** The sender's address: none, one that does not split into host and port, or its host part. */
  datatype Address = NoAddress | Malformed | Host(ip: string)

  datatype Verdict = Pass | BlacklistedID | BlacklistedIP | BadAddress

  /** What reading or fetching a list yields. */
  datatype Contents = Items(items: seq<Item>) | Unreadable

  // ---------------------------------------------------------------- a linear scan

  ghost predicate NamesGateway(items: seq<Item>, id: string) {
    id != "" && exists i | 0 <= i < |items| :: items[i].gateway == id
  }

  ghost predicate NamesIP(items: seq<Item>, ip: string) {
    ip != "" && exists i | 0 <= i < |items| :: items[i].ip == ip
  }

  ghost predicate ListsGateway(lists: Lists, id: string) {
    exists location | location in lists :: NamesGateway(lists[location], id)
  }

  ghost predicate ListsIP(lists: Lists, ip: string) {
    exists location | location in lists :: NamesIP(lists[location], ip)
  }

  /** The gateway ID is looked at first, the address only when the ID is not listed. */
  ghost function Scan(lists: Lists, id: string, address: Address): Verdict {
    if ListsGateway(lists, id) then BlacklistedID
    else
      match address
      case NoAddress => Pass
      case Malformed => BadAddress
      case Host(ip) => if ListsIP(lists, ip) then BlacklistedIP else Pass
  }

  function Load(lists: Lists, location: string, contents: Contents): Lists {
    if contents.Items? then lists[location := contents.items] else lists
  }

  datatype Loading = Loading(location: string, contents: Contents)

  function LoadAll(loads: seq<Loading>): Lists {
    if loads == [] then map[]
    else Load(LoadAll(loads[..|loads| - 1]), loads[|loads| - 1].location, loads[|loads| - 1].contents)
  }

  /** The contents of the last load of a location that succeeded. */
  function Current(loads: seq<Loading>, location: string): Contents {
    if loads == [] then Unreadable
    else if loads[|loads| - 1].location == location && loads[|loads| - 1].contents.Items? then loads[|loads| - 1].contents
    else Current(loads[..|loads| - 1], location)
  }

  lemma {:induction false} ListsAreCurrent(loads: seq<Loading>, location: string)
    ensures Current(loads, location) == if location in LoadAll(loads) then Items(LoadAll(loads)[location]) else Unreadable
  {
    if loads != [] {
      ListsAreCurrent(loads[..|loads| - 1], location);
    }
  }

  ghost predicate StillNames(loads: seq<Loading>, location: string, id: string) {
    && id != "" && Current(loads, location).Items?
    && var items := Current(loads, location).items;
       exists i | 0 <= i < |items| :: items[i].gateway == id
  }

  /** A gateway is blocked exactly as long as some location's last good load names it. */
  lemma BlocksWhileListed(loads: seq<Loading>, id: string, address: Address)
    ensures Scan(LoadAll(loads), id, address) == BlacklistedID <==> exists location :: StillNames(loads, location, id)
  {
    hide LoadAll, Current;
    if ListsGateway(LoadAll(loads), id) {
      var location :| location in LoadAll(loads) && NamesGateway(LoadAll(loads)[location], id);
      ListsAreCurrent(loads, location);
      assert StillNames(loads, location, id);
    }
    if location :| StillNames(loads, location, id) {
      ListsAreCurrent(loads, location);
    }
  }

  ghost predicate StillNamesIP(loads: seq<Loading>, location: string, ip: string) {
    && ip != "" && Current(loads, location).Items?
    && var items := Current(loads, location).items;
       exists i | 0 <= i < |items| :: items[i].ip == ip
  }

  /** An address is blocked exactly as long as some location's last good load names it and none names the gateway. */
  lemma BlocksAddressWhileListed(loads: seq<Loading>, id: string, ip: string)
    ensures Scan(LoadAll(loads), id, Host(ip)) == BlacklistedIP <==>
            (exists location :: StillNamesIP(loads, location, ip)) && !exists location :: StillNames(loads, location, id)
  {
    hide LoadAll, Current;
    BlocksWhileListed(loads, id, Host(ip));
    if ListsIP(LoadAll(loads), ip) {
      var location :| location in LoadAll(loads) && NamesIP(LoadAll(loads)[location], ip);
      ListsAreCurrent(loads, location);
      assert StillNamesIP(loads, location, ip);
    }
    if location :| StillNamesIP(loads, location, ip) {
      ListsAreCurrent(loads, location);
    }
  }

  /**
    Every verdict after any loads: an ID that a last good load names is blocked, then an address
    that does not split is an error, then an address that one names is blocked, and nothing else
    is. An empty ID and an empty address are named by no list.
   */
  lemma EveryVerdict(loads: seq<Loading>, id: string, address: Address)
    ensures var named := exists location :: StillNames(loads, location, id);
            var addressed := address.Host? && exists location :: StillNamesIP(loads, location, address.ip);
            && (Scan(LoadAll(loads), id, address) ==
                if named then BlacklistedID
                else if address.Malformed? then BadAddress
                else if addressed then BlacklistedIP
                else Pass)
            && (id == "" ==> !named) && (address == Host("") ==> !addressed)
  {
    hide LoadAll, Current, ListsGateway, ListsIP;
    BlocksWhileListed(loads, id, address);
    if address.Host? {
      BlocksAddressWhileListed(loads, id, address.ip);
    }
  }

  // ---------------------------------------------------------------- the code

  class Filter {
    var lists: Lists
    var ipLookup: map<string, bool>
    var idLookup: map<string, bool>

    /** The indexes hold what the lists hold, no more and no less. */
    ghost predicate Valid()
      reads this
    {
      && (forall id :: id in idLookup && idLookup[id] <==> ListsGateway(lists, id))
      && (forall ip :: ip in ipLookup && ipLookup[ip] <==> ListsIP(lists, ip))
    }

    constructor ()
      ensures Valid() && lists == LoadAll([])
    {
      lists, ipLookup, idLookup := map[], map[], map[];
    }

    /** The end of read and of fetch: a list that cannot be read changes nothing. */
    method Replace(location: string, contents: Contents) returns (ok: bool)
      requires Valid()
      modifies this
      ensures Valid() && lists == Load(old(lists), location, contents)
      ensures ok <==> contents.Items?
    {
      if contents.Unreadable? {
        return false;
      }
      lists := lists[location := contents.items];
      UpdateLookup();
      return true;
    }

    method UpdateLookup()
      modifies this`ipLookup, this`idLookup
      ensures Valid()
    {
      hide ListsGateway, ListsIP, NamesGateway, NamesIP;
      NothingIsNamed();
      ipLookup, idLookup := map[], map[];
      var todo := lists.Keys;
      ghost var seen: Lists := map[];
      while todo != {}
        invariant todo <= lists.Keys && seen == map location | location in lists && location !in todo :: lists[location]
        invariant forall id :: id in idLookup && idLookup[id] <==> ListsGateway(seen, id)
        invariant forall ip :: ip in ipLookup && ipLookup[ip] <==> ListsIP(seen, ip)
        decreases todo
      {
        var location :| location in todo;
        var blacklist := lists[location];
        assert blacklist[..0] == [];
        for i := 0 to |blacklist|
          invariant forall id :: id in idLookup && idLookup[id] <==> ListsGateway(seen, id) || NamesGateway(blacklist[..i], id)
          invariant forall ip :: ip in ipLookup && ipLookup[ip] <==> ListsIP(seen, ip) || NamesIP(blacklist[..i], ip)
        {
          var item := blacklist[i];
          assert blacklist[..i + 1] == blacklist[..i] + [item];
          NamesOneMore(blacklist[..i], item);
          if item.ip != "" {
            ipLookup := ipLookup[item.ip := true];
          }
          if item.gateway != "" {
            idLookup := idLookup[item.gateway := true];
          }
        }
        assert blacklist[..|blacklist|] == blacklist;
        ListsOneMore(seen, location, blacklist);
        seen := seen[location := blacklist];
        todo := todo - {location};
      }
      assert seen == lists;
    }

    method Check(id: string, address: Address) returns (verdict: Verdict)
      requires Valid()
      ensures verdict == Scan(lists, id, address)
    {
      if id in idLookup && idLookup[id] {
        return BlacklistedID;
      }
      match address {
        case NoAddress => return Pass;
        case Malformed => return BadAddress;
        case Host(ip) =>
          if ip in ipLookup && ipLookup[ip] {
            return BlacklistedIP;
          }
          return Pass;
      }
    }
  }

  lemma NothingIsNamed()
    ensures forall id :: !NamesGateway([], id) && !ListsGateway(map[], id)
    ensures forall ip :: !NamesIP([], ip) && !ListsIP(map[], ip)
  {
  }

  lemma NamesOneMore(items: seq<Item>, item: Item)
    ensures forall id :: NamesGateway(items + [item], id) <==> NamesGateway(items, id) || (id != "" && id == item.gateway)
    ensures forall ip :: NamesIP(items + [item], ip) <==> NamesIP(items, ip) || (ip != "" && ip == item.ip)
  {
    var more := items + [item];
    assert more[|items|] == item;
    forall id | NamesGateway(items, id) ensures NamesGateway(more, id) {
      var i :| 0 <= i < |items| && items[i].gateway == id;
      assert more[i].gateway == id;
    }
    forall ip | NamesIP(items, ip) ensures NamesIP(more, ip) {
      var i :| 0 <= i < |items| && items[i].ip == ip;
      assert more[i].ip == ip;
    }
  }

  lemma ListsOneMore(lists: Lists, location: string, items: seq<Item>)
    requires location !in lists
    ensures forall id :: ListsGateway(lists[location := items], id) <==> ListsGateway(lists, id) || NamesGateway(items, id)
    ensures forall ip :: ListsIP(lists[location := items], ip) <==> ListsIP(lists, ip) || NamesIP(items, ip)
  {
    hide NamesGateway, NamesIP;
    var more := lists[location := items];
    assert more[location] == items;
    forall id | ListsGateway(lists, id) ensures ListsGateway(more, id) {
      var l :| l in lists && NamesGateway(lists[l], id);
      assert more[l] == lists[l];
    }
    forall ip | ListsIP(lists, ip) ensures ListsIP(more, ip) {
      var l :| l in lists && NamesIP(lists[l], ip);
      assert more[l] == lists[l];
    }
  }
}
