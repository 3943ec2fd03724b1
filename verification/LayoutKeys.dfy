/**
  Names of the layout tools: paths as strings and as segments, the keys of a baseline in
  the order Python sorts them, and lists that report on keys in that order.
 */
module LayoutKeys {
  // ---- paths ----

  predicate SlashFree(s: string) {
    forall i :: 0 <= i < |s| ==> s[i] != '/'
  }

  /** Segments of a path; there is always at least one. */
  predicate IsPath(segments: seq<string>) {
    segments != [] && forall i :: 0 <= i < |segments| ==> SlashFree(segments[i])
  }

  function FirstSlash(s: string): (i: nat)
    ensures i <= |s| && (i < |s| ==> s[i] == '/') && SlashFree(s[..i])
  {
    if s == "" || s[0] == '/' then 0
    else
      var i := 1 + FirstSlash(s[1..]);
      assert s[..i] == [s[0]] + s[1..][..i - 1];
      i
  }

  function Split(s: string): (segments: seq<string>)
    ensures IsPath(segments)
    decreases |s|
  {
    var i := FirstSlash(s);
    if i == |s| then
      assert s[..i] == s;
      [s]
    else [s[..i]] + Split(s[i + 1..])
  }

  function Join(segments: seq<string>): string {
    if segments == [] then ""
    else if |segments| == 1 then segments[0]
    else segments[0] + "/" + Join(segments[1..])
  }

  lemma {:induction false} JoinSplit(s: string)
    ensures Join(Split(s)) == s
    decreases |s|
  {
    hide FirstSlash, SlashFree;
    var i := FirstSlash(s);
    if i < |s| {
      var tail := s[i + 1..];
      JoinSplit(tail);
      assert Split(s) == [s[..i]] + Split(tail);
      assert Split(s)[1..] == Split(tail);
      assert s == s[..i] + "/" + tail;
    }
  }

  lemma FirstSlashAt(head: string, tail: string)
    requires SlashFree(head)
    ensures FirstSlash(head) == |head| && FirstSlash(head + "/" + tail) == |head|
  {
    hide FirstSlash;
    var s := head + "/" + tail;
    assert s[|head|] == '/';
    assert forall j :: 0 <= j < |head| ==> s[j] == head[j];
    var i := FirstSlash(s);
    assert i > |head| ==> s[..i][|head|] == '/';
  }

  /** Joining and splitting are inverse, so a path is determined by its string. */
  lemma {:induction false} SplitJoin(segments: seq<string>)
    requires IsPath(segments)
    ensures Split(Join(segments)) == segments
    decreases |segments|
  {
    hide FirstSlash;
    var head := segments[0];
    if |segments| == 1 {
      FirstSlashAt(head, "");
      assert segments == [head];
    } else {
      var tail := Join(segments[1..]);
      FirstSlashAt(head, tail);
      SplitJoin(segments[1..]);
      var s := head + "/" + tail;
      assert s[..|head|] == head && s[|head| + 1..] == tail;
      assert segments == [head] + segments[1..];
    }
  }

  lemma JoinIsInjective(a: seq<string>, b: seq<string>)
    requires IsPath(a) && IsPath(b) && Join(a) == Join(b)
    ensures a == b
  {
    SplitJoin(a);
    SplitJoin(b);
  }

  // ---- keys in sorted order ----

  datatype Kind = Dir | File

  datatype Key = Key(kind: Kind, path: string)

  type Entries = map<Key, int>

  /** Code point by code point, a prefix first. */
  predicate TextLess(a: string, b: string) {
    if b == "" then false
    else if a == "" then true
    else if a[0] == b[0] then TextLess(a[1..], b[1..])
    else a[0] < b[0]
  }

  predicate KeyLess(a: Key, b: Key) {
    if a.kind == b.kind then TextLess(a.path, b.path) else a.kind.Dir?
  }

  lemma {:induction false} TextOrder(a: string, b: string)
    ensures !(TextLess(a, b) && TextLess(b, a))
    ensures TextLess(a, b) || TextLess(b, a) || a == b
    decreases |a|
  {
    if a != "" && b != "" && a[0] == b[0] {
      TextOrder(a[1..], b[1..]);
      assert a == [a[0]] + a[1..] && b == [b[0]] + b[1..];
    }
  }

  lemma {:induction false} TextTransitive(a: string, b: string, c: string)
    requires TextLess(a, b) && TextLess(b, c)
    ensures TextLess(a, c)
    decreases |a|
  {
    if a != "" && a[0] == b[0] == c[0] {
      TextTransitive(a[1..], b[1..], c[1..]);
    }
  }

  lemma KeyOrder(a: Key, b: Key)
    ensures !(KeyLess(a, b) && KeyLess(b, a))
    ensures KeyLess(a, b) || KeyLess(b, a) || a == b
  {
    TextOrder(a.path, b.path);
  }

  lemma KeyTransitive(a: Key, b: Key, c: Key)
    requires KeyLess(a, b) && KeyLess(b, c)
    ensures KeyLess(a, c)
  {
    if a.kind == b.kind == c.kind {
      TextTransitive(a.path, b.path, c.path);
    }
  }

  predicate Ascending(order: seq<Key>) {
    forall i, j :: 0 <= i < j < |order| ==> KeyLess(order[i], order[j])
  }

  function Elements(order: seq<Key>): set<Key> {
    set key | key in order
  }

  /** Where a new key belongs in an ascending list. */
  method PlaceFor(key: Key, order: seq<Key>) returns (p: nat)
    requires Ascending(order) && key !in order
    ensures p <= |order|
    ensures forall i :: 0 <= i < p ==> KeyLess(order[i], key)
    ensures forall i :: p <= i < |order| ==> KeyLess(key, order[i])
  {
    hide KeyLess;
    p := 0;
    while p < |order| && KeyLess(order[p], key)
      invariant p <= |order|
      invariant forall i :: 0 <= i < p ==> KeyLess(order[i], key)
    {
      p := p + 1;
    }
    if p < |order| {
      KeyOrder(order[p], key);
      forall i | p <= i < |order| ensures KeyLess(key, order[i]) {
        if i > p {
          KeyTransitive(key, order[p], order[i]);
        }
      }
    }
  }

  lemma ElementsJoin(a: seq<Key>, b: seq<Key>)
    ensures Elements(a + b) == Elements(a) + Elements(b)
  {
    assert forall k :: k in a + b <==> k in a || k in b;
  }

  lemma AscendingJoin(a: seq<Key>, b: seq<Key>)
    requires Ascending(a) && Ascending(b)
    requires forall i, j :: 0 <= i < |a| && 0 <= j < |b| ==> KeyLess(a[i], b[j])
    ensures Ascending(a + b)
  {
    hide KeyLess;
    var c := a + b;
    forall i, j | 0 <= i < j < |c| ensures KeyLess(c[i], c[j]) {
      if j < |a| {
        assert c[i] == a[i] && c[j] == a[j];
      } else if i < |a| {
        assert c[i] == a[i] && c[j] == b[j - |a|];
      } else {
        assert c[i] == b[i - |a|] && c[j] == b[j - |a|];
      }
    }
  }

  lemma AscendingInsert(key: Key, order: seq<Key>, p: nat)
    requires Ascending(order) && p <= |order|
    requires forall i :: 0 <= i < p ==> KeyLess(order[i], key)
    requires forall i :: p <= i < |order| ==> KeyLess(key, order[i])
    ensures var more := order[..p] + ([key] + order[p..]); Ascending(more) && Elements(more) == Elements(order) + {key}
  {
    hide KeyLess;
    var a, b := order[..p], order[p..];
    AscendingJoin([key], b);
    assert forall i, j :: 0 <= i < |a| && 0 <= j < |b| ==> KeyLess(a[i], b[j]);
    AscendingJoin(a, [key] + b);
    hide Ascending;
    assert order == a + b;
    ElementsJoin(a, b);
    ElementsJoin([key], b);
    ElementsJoin(a, [key] + b);
    assert Elements([key]) == {key};
  }

  /** The keys in ascending order. */
  method SortedKeys(keys: set<Key>) returns (order: seq<Key>)
    ensures Ascending(order) && Elements(order) == keys
  {
    hide Ascending, Elements;
    order := [];
    SortedNothing();
    var todo := keys;
    assert keys - todo == {};
    while todo != {}
      invariant todo <= keys && Ascending(order) && Elements(order) == keys - todo
      decreases todo
    {
      var key :| key in todo;
      NotElement(key, order);
      var p := PlaceFor(key, order);
      AscendingInsert(key, order, p);
      order := order[..p] + ([key] + order[p..]);
      assert keys - (todo - {key}) == keys - todo + {key};
      todo := todo - {key};
    }
    assert keys - todo == keys;
  }

  lemma SortedNothing()
    ensures Ascending([]) && Elements([]) == {}
  {
  }

  lemma NotElement(key: Key, order: seq<Key>)
    ensures key in Elements(order) <==> key in order
  {
  }

  // ---- lists that report on keys ----

  /** The list names, in ascending order, exactly the wanted keys of `done`, each with a good item. */
  ghost predicate Lists<T(!new)>(items: seq<T>, key: T -> Key, done: set<Key>, wanted: Key -> bool, good: T -> bool) {
    && (forall i, j :: 0 <= i < j < |items| ==> KeyLess(key(items[i]), key(items[j])))
    && (forall i :: 0 <= i < |items| ==> key(items[i]) in done && wanted(key(items[i])) && good(items[i]))
    && (forall k :: k in done && wanted(k) ==> exists i :: 0 <= i < |items| && key(items[i]) == k)
  }

  lemma ListsSkip<T(!new)>(items: seq<T>, key: T -> Key, done: set<Key>, wanted: Key -> bool, good: T -> bool, k: Key)
    requires Lists(items, key, done, wanted, good) && !wanted(k)
    ensures Lists(items, key, done + {k}, wanted, good)
  {
    hide KeyLess;
  }

  lemma ListsNext<T(!new)>(items: seq<T>, key: T -> Key, done: set<Key>, wanted: Key -> bool, good: T -> bool, x: T)
    requires Lists(items, key, done, wanted, good) && wanted(key(x)) && good(x)
    requires forall k :: k in done ==> KeyLess(k, key(x))
    ensures Lists(items + [x], key, done + {key(x)}, wanted, good)
  {
    hide KeyLess;
    var more := items + [x];
    assert forall i :: 0 <= i < |items| ==> more[i] == items[i];
    assert more[|items|] == x;
    forall k | k in done + {key(x)} && wanted(k) ensures exists i :: 0 <= i < |more| && key(more[i]) == k {
      if k in done {
        var i :| 0 <= i < |items| && key(items[i]) == k;
        assert key(more[i]) == k;
      }
    }
  }

  /** An empty list means that nothing was wanted. */
  lemma ListsEmpty<T(!new)>(items: seq<T>, key: T -> Key, done: set<Key>, wanted: Key -> bool, good: T -> bool)
    requires Lists(items, key, done, wanted, good)
    ensures items == [] <==> forall k :: k in done ==> !wanted(k)
  {
    hide KeyLess;
    if items != [] {
      assert key(items[0]) in done && wanted(key(items[0]));
    }
  }

  /** The keys before position `i`, all smaller than the one there. */
  lemma PrefixElements(order: seq<Key>, i: nat)
    requires Ascending(order) && i < |order|
    ensures Elements(order[..i + 1]) == Elements(order[..i]) + {order[i]}
    ensures forall k :: k in Elements(order[..i]) ==> KeyLess(k, order[i])
    ensures order[i] !in Elements(order[..i])
  {
    hide KeyLess;
    assert order[..i + 1] == order[..i] + [order[i]];
    KeyOrder(order[i], order[i]);
  }
}
