/**
 Making the keys of a query agree over its three lists, and leaving each name once in each list, where it first
 occurred.
 */
module DuplicateKeys {
  /*
   Keys of one name are joined: `context` and `dataType` are unspecified or a given one, and `rest` is
   what the join never looks at.
   */

  import opened TimeWindows

  datatype Key = Key(name: string, context: Option<string>, dataType: Option<string>, rest: string)

  datatype OrderBy = OrderBy(key: Key, descending: bool)

  function JoinField(a: Option<string>, b: Option<string>): Option<string> {
    if a == b then a else None
  }

  /** deduplicateKeys for a name that is already there. */
  function Join(existing: Key, key: Key): Key {
    existing.(context := JoinField(existing.context, key.context), dataType := JoinField(existing.dataType, key.dataType))
  }

  function JoinAll(ks: seq<Key>): (k: Key)
    requires ks != []
  {
    if |ks| == 1 then ks[0] else Join(JoinAll(ks[..|ks| - 1]), ks[|ks| - 1])
  }

  /** The keys of one name, in order. */
  function Named(keys: seq<Key>, name: string): seq<Key> {
    if keys == [] then []
    else Named(keys[..|keys| - 1], name) + (if keys[|keys| - 1].name == name then [keys[|keys| - 1]] else [])
  }

  function JoinFields(fields: seq<Option<string>>): Option<string>
    requires fields != []
  {
    if |fields| == 1 then fields[0] else JoinField(JoinFields(fields[..|fields| - 1]), fields[|fields| - 1])
  }

  predicate AllAre(fields: seq<Option<string>>, f: Option<string>) {
    forall i :: 0 <= i < |fields| ==> fields[i] == f
  }

  lemma {:induction false} JoinFieldsMeaning(fields: seq<Option<string>>)
    requires fields != []
    ensures JoinFields(fields) == if AllAre(fields, fields[0]) then fields[0] else None
  {
    if |fields| > 1 {
      var front, last := fields[..|fields| - 1], fields[|fields| - 1];
      JoinFieldsMeaning(front);
      assert AllAre(fields, fields[0]) <==> AllAre(front, fields[0]) && last == fields[0] by {
        assert fields == front + [last];
      }
    }
  }

  function Contexts(ks: seq<Key>): (fs: seq<Option<string>>)
    ensures |fs| == |ks| && forall i :: 0 <= i < |ks| ==> fs[i] == ks[i].context
  {
    seq(|ks|, i requires 0 <= i < |ks| => ks[i].context)
  }

  function DataTypes(ks: seq<Key>): (fs: seq<Option<string>>)
    ensures |fs| == |ks| && forall i :: 0 <= i < |ks| ==> fs[i] == ks[i].dataType
  {
    seq(|ks|, i requires 0 <= i < |ks| => ks[i].dataType)
  }

  lemma {:induction false} JoinByField(ks: seq<Key>)
    requires ks != []
    ensures JoinAll(ks) == ks[0].(context := JoinFields(Contexts(ks)), dataType := JoinFields(DataTypes(ks)))
  {
    if |ks| > 1 {
      var front := ks[..|ks| - 1];
      JoinByField(front);
      assert Contexts(ks)[..|ks| - 1] == Contexts(front) && DataTypes(ks)[..|ks| - 1] == DataTypes(front);
    }
  }

  /** A field survives the join exactly when all the keys agree on it; the rest is the first key's. */
  lemma {:induction false} JoinMeaning(ks: seq<Key>)
    requires ks != []
    ensures JoinAll(ks).context == if forall k :: k in ks ==> k.context == ks[0].context then ks[0].context else None
    ensures JoinAll(ks).dataType == if forall k :: k in ks ==> k.dataType == ks[0].dataType then ks[0].dataType else None
    ensures JoinAll(ks).name == ks[0].name && JoinAll(ks).rest == ks[0].rest
  {
    JoinByField(ks);
    JoinFieldsMeaning(Contexts(ks));
    JoinFieldsMeaning(DataTypes(ks));
    assert AllAre(Contexts(ks), ks[0].context) <==> forall k :: k in ks ==> k.context == ks[0].context by {
      forall i | 0 <= i < |ks| ensures ks[i] in ks && Contexts(ks)[i] == ks[i].context {}
    }
    assert AllAre(DataTypes(ks), ks[0].dataType) <==> forall k :: k in ks ==> k.dataType == ks[0].dataType by {
      forall i | 0 <= i < |ks| ensures ks[i] in ks && DataTypes(ks)[i] == ks[i].dataType {}
    }
  }

  /** The joined context and data type do not depend on the order in which the keys are met. */
  lemma JoinIgnoresOrder(ks: seq<Key>, ks': seq<Key>)
    requires ks != [] && multiset(ks) == multiset(ks')
    ensures ks' != [] && JoinAll(ks).context == JoinAll(ks').context && JoinAll(ks).dataType == JoinAll(ks').dataType
  {
    assert |multiset(ks)| == |ks| && |multiset(ks')| == |ks'|;
    JoinMeaning(ks);
    JoinMeaning(ks');
    forall k
      ensures k in ks <==> k in ks'
    {
      assert k in ks <==> k in multiset(ks);
      assert k in ks' <==> k in multiset(ks');
    }
    assert ks[0] in ks' && ks'[0] in ks;
  }

  /* ---- the rebuilt lists ---- */

  /** What every key of that name becomes. */
  function JoinedKey(all: seq<Key>, name: string): Key {
    if Named(all, name) == [] then Key(name, None, None, "") else JoinAll(Named(all, name))
  }

  function Joining(all: seq<Key>): string -> Key {
    name => JoinedKey(all, name)
  }

  predicate Mentions(keys: seq<Key>, name: string) {
    exists k :: k in keys && k.name == name
  }

  /** The joined keys, each where its name occurs for the first time. */
  function RebuiltKeys(list: seq<Key>, joined: string -> Key): seq<Key> {
    if list == [] then []
    else
      var front, name := list[..|list| - 1], list[|list| - 1].name;
      RebuiltKeys(front, joined) + (if Mentions(front, name) then [] else [joined(name)])
  }

  function KeysOf(order: seq<OrderBy>): (keys: seq<Key>)
    ensures |keys| == |order| && forall i :: 0 <= i < |order| ==> keys[i] == order[i].key
  {
    seq(|order|, i requires 0 <= i < |order| => order[i].key)
  }

  /** The direction is the first occurrence's. */
  function RebuiltOrder(list: seq<OrderBy>, joined: string -> Key): seq<OrderBy> {
    if list == [] then []
    else
      var front, last := list[..|list| - 1], list[|list| - 1];
      RebuiltOrder(front, joined)
      + (if Mentions(KeysOf(front), last.key.name) then [] else [OrderBy(joined(last.key.name), last.descending)])
  }

  /** The joined key of every name met so far. */
  ghost predicate IsJoined(m: map<string, Key>, keys: seq<Key>) {
    && (forall name :: name in m <==> Named(keys, name) != [])
    && forall name :: name in m ==> m[name] == JoinedKey(keys, name)
  }

  lemma NamedSnoc(keys: seq<Key>, key: Key, name: string)
    ensures Named(keys + [key], name) == Named(keys, name) + (if key.name == name then [key] else [])
  {
    assert (keys + [key])[..|keys|] == keys;
  }

  lemma {:induction false} NamedMembers(keys: seq<Key>, name: string)
    ensures forall k :: k in Named(keys, name) <==> k in keys && k.name == name
  {
    if keys != [] {
      NamedMembers(keys[..|keys| - 1], name);
      assert keys == keys[..|keys| - 1] + [keys[|keys| - 1]];
    }
  }

  lemma MentionsSnoc(keys: seq<Key>, key: Key)
    ensures forall name :: Mentions(keys + [key], name) <==> Mentions(keys, name) || key.name == name
  {
    forall name
      ensures Mentions(keys + [key], name) <==> Mentions(keys, name) || key.name == name
    {
      assert forall k :: k in keys + [key] <==> k in keys || k == key;
    }
  }

  /* ---- the method ---- */

  class QuerySpec {
    var selectFields: seq<Key>
    var groupBy: seq<Key>
    var order: seq<OrderBy>

    constructor (selectFields: seq<Key>, groupBy: seq<Key>, order: seq<OrderBy>)
      ensures this.selectFields == selectFields && this.groupBy == groupBy && this.order == order
    {
      this.selectFields, this.groupBy, this.order := selectFields, groupBy, order;
    }

    function AllKeys(): seq<Key>
      reads this
    {
      selectFields + groupBy + KeysOf(order)
    }

    method AdjustDuplicateKeys()
      modifies this
      ensures selectFields == RebuiltKeys(old(selectFields), Joining(old(AllKeys())))
      ensures groupBy == RebuiltKeys(old(groupBy), Joining(old(AllKeys())))
      ensures order == RebuiltOrder(old(order), Joining(old(AllKeys())))
    {
      var joined := DeduplicateKeys(map[], selectFields, []);
      joined := DeduplicateKeys(joined, groupBy, [] + selectFields);
      joined := DeduplicateKeys(joined, KeysOf(order), [] + selectFields + groupBy);
      assert [] + selectFields + groupBy + KeysOf(order) == AllKeys();
      ghost var all := AllKeys();
      KeysAreJoined(joined, all);
      selectFields := Rebuild(selectFields, joined, Joining(all));
      groupBy := Rebuild(groupBy, joined, Joining(all));
      order := RebuildOrder(order, joined, Joining(all));
    }
  }

  lemma JoinedSnoc(keys: seq<Key>, key: Key)
    ensures forall name :: name != key.name ==> Named(keys + [key], name) == Named(keys, name)
    ensures Named(keys + [key], key.name) == Named(keys, key.name) + [key]
    ensures JoinedKey(keys + [key], key.name) == if Named(keys, key.name) == [] then key else Join(JoinedKey(keys, key.name), key)
  {
    forall name { NamedSnoc(keys, key, name); }
    NamedSnoc(keys, key, key.name);
    var ks := Named(keys, key.name);
    assert (ks + [key])[..|ks|] == ks;
  }

  lemma NextJoined(joined: map<string, Key>, done: seq<Key>, key: Key)
    requires IsJoined(joined, done)
    ensures IsJoined(joined[key.name := if key.name in joined then Join(joined[key.name], key) else key], done + [key])
  {
    JoinedSnoc(done, key);
  }

  /** deduplicateKeys over one of the lists, into the shared map. */
  method DeduplicateKeys(joined: map<string, Key>, list: seq<Key>, ghost before: seq<Key>) returns (joined': map<string, Key>)
    requires IsJoined(joined, before)
    ensures IsJoined(joined', before + list)
  {
    joined' := joined;
    assert before + list[..0] == before;
    for i := 0 to |list|
      invariant IsJoined(joined', before + list[..i])
    {
      var key := list[i];
      NextJoined(joined', before + list[..i], key);
      joined' := joined'[key.name := if key.name in joined' then Join(joined'[key.name], key) else key];
      assert before + list[..i + 1] == before + list[..i] + [key];
    }
    assert list[..|list|] == list;
  }

  lemma KeyIsJoined(joined: map<string, Key>, k: Key, all: seq<Key>)
    requires IsJoined(joined, all) && k in all
    ensures k.name in joined && joined[k.name] == JoinedKey(all, k.name)
  {
    NamedMembers(all, k.name);
    assert k in Named(all, k.name);
  }

  /** The map holds what the keys of a list become. */
  ghost predicate HasKeys(m: map<string, Key>, keys: seq<Key>, joined: string -> Key) {
    forall k :: k in keys ==> k.name in m && m[k.name] == joined(k.name)
  }

  lemma KeysAreJoined(m: map<string, Key>, all: seq<Key>)
    requires IsJoined(m, all)
    ensures HasKeys(m, all, Joining(all))
  {
    forall k | k in all { KeyIsJoined(m, k, all); }
  }

  function NamesOf(keys: seq<Key>): set<string> {
    set k | k in keys :: k.name
  }

  lemma NamesNext(keys: seq<Key>, key: Key)
    ensures NamesOf(keys + [key]) == NamesOf(keys) + {key.name}
    ensures key.name in NamesOf(keys) <==> Mentions(keys, key.name)
  {
  }

  lemma NextKey(list: seq<Key>, i: nat, joined: string -> Key)
    requires i < |list|
    ensures list[i] in list
    ensures NamesOf(list[..i + 1]) == NamesOf(list[..i]) + {list[i].name}
    ensures RebuiltKeys(list[..i + 1], joined)
         == RebuiltKeys(list[..i], joined) + (if list[i].name in NamesOf(list[..i]) then [] else [joined(list[i].name)])
  {
    assert list[..i + 1] == list[..i] + [list[i]] && list[..i + 1][..i] == list[..i];
    NamesNext(list[..i], list[i]);
  }

  method Rebuild(list: seq<Key>, m: map<string, Key>, ghost joined: string -> Key) returns (list': seq<Key>)
    requires HasKeys(m, list, joined)
    ensures list' == RebuiltKeys(list, joined)
  {
    list' := [];
    var seen: set<string> := {};
    for i := 0 to |list|
      invariant seen == NamesOf(list[..i])
      invariant list' == RebuiltKeys(list[..i], joined)
    {
      NextKey(list, i, joined);
      if list[i].name !in seen {
        list' := list' + [m[list[i].name]];
        seen := seen + {list[i].name};
      }
    }
    assert list[..|list|] == list;
  }

  lemma NextOrder(list: seq<OrderBy>, i: nat, joined: string -> Key)
    requires i < |list|
    ensures list[i].key in KeysOf(list)
    ensures NamesOf(KeysOf(list[..i + 1])) == NamesOf(KeysOf(list[..i])) + {list[i].key.name}
    ensures RebuiltOrder(list[..i + 1], joined)
         == RebuiltOrder(list[..i], joined)
            + (if list[i].key.name in NamesOf(KeysOf(list[..i])) then []
               else [OrderBy(joined(list[i].key.name), list[i].descending)])
  {
    assert KeysOf(list)[i] == list[i].key;
    assert list[..i + 1][..i] == list[..i];
    assert KeysOf(list[..i + 1]) == KeysOf(list[..i]) + [list[i].key];
    NamesNext(KeysOf(list[..i]), list[i].key);
  }

  method RebuildOrder(list: seq<OrderBy>, m: map<string, Key>, ghost joined: string -> Key) returns (list': seq<OrderBy>)
    requires HasKeys(m, KeysOf(list), joined)
    ensures list' == RebuiltOrder(list, joined)
  {
    list' := [];
    var seen: set<string> := {};
    for i := 0 to |list|
      invariant seen == NamesOf(KeysOf(list[..i]))
      invariant list' == RebuiltOrder(list[..i], joined)
    {
      NextOrder(list, i, joined);
      if list[i].key.name !in seen {
        list' := list' + [OrderBy(m[list[i].key.name], list[i].descending)];
        seen := seen + {list[i].key.name};
      }
    }
    assert list[..|list|] == list;
  }

  /* ---- what is rebuilt ---- */

  ghost predicate NoDuplicates(keys: seq<Key>) {
    forall i, j :: 0 <= i < j < |keys| ==> keys[i].name != keys[j].name
  }

  lemma JoinedKeyName(all: seq<Key>, name: string)
    ensures JoinedKey(all, name).name == name
  {
    var ks := Named(all, name);
    NamedMembers(all, name);
    if ks != [] {
      JoinMeaning(ks);
      assert ks[0] in ks;
    }
  }

  ghost predicate KeepsNames(joined: string -> Key) {
    forall name :: joined(name).name == name
  }

  lemma JoiningKeepsNames(all: seq<Key>)
    ensures KeepsNames(Joining(all))
  {
    forall name { JoinedKeyName(all, name); }
  }

  /** Where a name first occurs; the length of the list if nowhere. */
  function FirstIndex(keys: seq<Key>, name: string): (i: nat)
    ensures i <= |keys|
    ensures i < |keys| ==> keys[i].name == name
    ensures forall j :: 0 <= j < i ==> keys[j].name != name
  {
    if keys == [] then 0 else if keys[0].name == name then 0 else FirstIndex(keys[1..], name) + 1
  }

  ghost predicate InOrderOf(keys: seq<Key>, list: seq<Key>) {
    forall i, j :: 0 <= i < j < |keys| ==> FirstIndex(list, keys[i].name) < FirstIndex(list, keys[j].name)
  }

  lemma FirstIndexSnoc(front: seq<Key>, last: Key, name: string)
    ensures FirstIndex(front + [last], name) ==
            if Mentions(front, name) then FirstIndex(front, name) else if last.name == name then |front| else |front| + 1
  {
    var i, k := FirstIndex(front, name), FirstIndex(front + [last], name);
    assert forall j :: 0 <= j < |front| ==> (front + [last])[j] == front[j];
    assert (front + [last])[|front|] == last;
    if Mentions(front, name) {
      var j :| 0 <= j < |front| && front[j].name == name;
      assert (front + [last])[i].name == name;
    }
  }

  lemma FirstIndexStays(front: seq<Key>, last: Key, name: string)
    requires Mentions(front, name)
    ensures FirstIndex(front + [last], name) == FirstIndex(front, name) < |front|
  {
    FirstIndexSnoc(front, last, name);
    var j :| 0 <= j < |front| && front[j].name == name;
  }

  /** A list that says more at its end has the same first occurrences. */
  lemma OrderStays(keys: seq<Key>, front: seq<Key>, last: Key, list: seq<Key>)
    requires InOrderOf(keys, front) && list == front + [last] && forall k :: k in keys ==> Mentions(front, k.name)
    ensures InOrderOf(keys, list)
    ensures forall k :: k in keys ==> FirstIndex(list, k.name) < |front|
  {
    forall k | k in keys
      ensures FirstIndex(list, k.name) == FirstIndex(front, k.name) < |front|
    {
      FirstIndexStays(front, last, k.name);
    }
    forall i, j | 0 <= i < j < |keys|
      ensures FirstIndex(list, keys[i].name) < FirstIndex(list, keys[j].name)
    {
      assert keys[i] in keys && keys[j] in keys;
    }
  }

  lemma OrderGrows(keys: seq<Key>, k: Key, list: seq<Key>)
    requires InOrderOf(keys, list) && forall x :: x in keys ==> FirstIndex(list, x.name) < FirstIndex(list, k.name)
    ensures InOrderOf(keys + [k], list)
  {
  }

  /** None lost and none new, and every key the joined one of its name. */
  lemma {:induction false} RebuiltMembers(list: seq<Key>, joined: string -> Key)
    requires KeepsNames(joined)
    ensures forall name :: Mentions(RebuiltKeys(list, joined), name) <==> Mentions(list, name)
    ensures forall k :: k in RebuiltKeys(list, joined) ==> k == joined(k.name) && Mentions(list, k.name)
  {
    if list != [] {
      var front, last := list[..|list| - 1], list[|list| - 1];
      RebuiltMembers(front, joined);
      MentionsSnoc(front, last);
      MentionsSnoc(RebuiltKeys(front, joined), joined(last.name));
      assert list == front + [last];
    }
  }

  /** In the order in which the names first occur, and so no name twice. */
  lemma {:induction false} RebuiltInOrder(list: seq<Key>, joined: string -> Key)
    requires KeepsNames(joined)
    ensures InOrderOf(RebuiltKeys(list, joined), list)
  {
    if list != [] {
      var front, last := list[..|list| - 1], list[|list| - 1];
      assert list == front + [last];
      RebuiltInOrder(front, joined);
      RebuiltMembers(front, joined);
      OrderStays(RebuiltKeys(front, joined), front, last, list);
      if !Mentions(front, last.name) {
        FirstIndexSnoc(front, last, last.name);
        OrderGrows(RebuiltKeys(front, joined), joined(last.name), list);
      }
    }
  }

  /** What is rebuilt: each name once, in the order of first occurrences, with its joined key. */
  lemma RebuiltMeaning(list: seq<Key>, all: seq<Key>)
    ensures NoDuplicates(RebuiltKeys(list, Joining(all))) && InOrderOf(RebuiltKeys(list, Joining(all)), list)
    ensures forall name :: Mentions(RebuiltKeys(list, Joining(all)), name) <==> Mentions(list, name)
    ensures forall k :: k in RebuiltKeys(list, Joining(all)) ==> k == JoinedKey(all, k.name)
  {
    JoiningKeepsNames(all);
    RebuiltMembers(list, Joining(all));
    RebuiltInOrder(list, Joining(all));
    var r := RebuiltKeys(list, Joining(all));
    forall i, j | 0 <= i < j < |r| ensures r[i].name != r[j].name {
      assert FirstIndex(list, r[i].name) < FirstIndex(list, r[j].name);
    }
  }

  lemma {:induction false} OrderIsRebuilt(list: seq<OrderBy>, joined: string -> Key)
    ensures KeysOf(RebuiltOrder(list, joined)) == RebuiltKeys(KeysOf(list), joined)
  {
    if list != [] {
      var front := list[..|list| - 1];
      OrderIsRebuilt(front, joined);
      assert KeysOf(list)[..|list| - 1] == KeysOf(front);
    }
  }

  /* ---- adjusting twice ---- */

  ghost predicate Settled(list: seq<Key>, joined: string -> Key) {
    NoDuplicates(list) && forall k :: k in list ==> joined(k.name) == k
  }

  lemma SettledFront(list: seq<Key>, joined: string -> Key)
    requires list != [] && Settled(list, joined)
    ensures Settled(list[..|list| - 1], joined)
    ensures var last := list[|list| - 1]; joined(last.name) == last && !Mentions(list[..|list| - 1], last.name)
  {
    assert list[|list| - 1] in list;
    forall k | k in list[..|list| - 1] ensures k in list {}
  }

  /** A new name that joins to its own key comes after what was there. */
  lemma RebuiltNext(list: seq<Key>, joined: string -> Key)
    requires list != []
    requires var last := list[|list| - 1]; joined(last.name) == last && !Mentions(list[..|list| - 1], last.name)
    ensures RebuiltKeys(list, joined) == RebuiltKeys(list[..|list| - 1], joined) + [list[|list| - 1]]
  {
  }

  lemma {:induction false} SettledStays(list: seq<Key>, joined: string -> Key)
    requires Settled(list, joined)
    ensures RebuiltKeys(list, joined) == list
  {
    if list != [] {
      SettledFront(list, joined);
      RebuiltNext(list, joined);
      SettledStays(list[..|list| - 1], joined);
    }
  }

  lemma {:induction false} SettledOrderStays(list: seq<OrderBy>, joined: string -> Key)
    requires Settled(KeysOf(list), joined)
    ensures RebuiltOrder(list, joined) == list
  {
    if list != [] {
      var front, last := list[..|list| - 1], list[|list| - 1];
      assert KeysOf(front) == KeysOf(list)[..|list| - 1];
      assert KeysOf(list)[|list| - 1] in KeysOf(list) && list == front + [last];
      SettledOrderStays(front, joined);
    }
  }

  /** A name whose keys are all the same one joins to that one. */
  lemma SameKeysJoin(all: seq<Key>, k: Key)
    requires k in all && forall k' :: k' in all && k'.name == k.name ==> k' == k
    ensures JoinedKey(all, k.name) == k
  {
    NamedMembers(all, k.name);
    var ks := Named(all, k.name);
    assert k in ks;
    JoinMeaning(ks);
    assert ks[0] in ks && ks[0] == k;
  }

  /** Adjusting is idempotent. */
  lemma AdjustedTwice(s: seq<Key>, g: seq<Key>, o: seq<OrderBy>)
    ensures
      var all := s + g + KeysOf(o);
      var s', g', o' := RebuiltKeys(s, Joining(all)), RebuiltKeys(g, Joining(all)), RebuiltOrder(o, Joining(all));
      var all' := s' + g' + KeysOf(o');
      RebuiltKeys(s', Joining(all')) == s' && RebuiltKeys(g', Joining(all')) == g' && RebuiltOrder(o', Joining(all')) == o'
  {
    var all := s + g + KeysOf(o);
    var s', g', o' := RebuiltKeys(s, Joining(all)), RebuiltKeys(g, Joining(all)), RebuiltOrder(o, Joining(all));
    var all' := s' + g' + KeysOf(o');
    OrderIsRebuilt(o, Joining(all));
    RebuiltMeaning(s, all);
    RebuiltMeaning(g, all);
    RebuiltMeaning(KeysOf(o), all);
    forall k | k in all'
      ensures JoinedKey(all', k.name) == k
    {
      assert forall k' :: k' in all' ==> k' == JoinedKey(all, k'.name);
      SameKeysJoin(all', k);
    }
    SettledStays(s', Joining(all'));
    SettledStays(g', Joining(all'));
    SettledOrderStays(o', Joining(all'));
  }
}
