/** The instance records the editor renders: the attributes of one EC2 instance,
    its derived name, the name filter applied when the list is built, and the
    order the list is sorted in. */
module Inventory {
  import opened Strings
  import opened Markers

  /** One entry of the instance's tag list. */
  datatype TagPair = TagPair(key: string, value: string)

  /** An instance as the SDK reports it. An absent attribute is the empty string,
      as `aws.StringValue` of a nil pointer is, and an absent placement gives
      the empty zone. */
  datatype Instance = Instance(
    id: string,
    instanceType: string,
    privateIp: string,
    publicIp: string,
    zone: string,
    tags: seq<TagPair>)

  /** The value of the first pair whose key is `key`, or "" when there is none. */
  function FirstValue(tags: seq<TagPair>, key: string): string {
    if tags == [] then ""
    else if tags[0].key == key then tags[0].value
    else FirstValue(tags[1..], key)
  }

  /** `FirstValue` finds the first pair with the key: "" when no pair has it,
      that pair's value otherwise. */
  lemma {:induction false} FirstValueSpec(tags: seq<TagPair>, key: string)
    ensures (forall k | 0 <= k < |tags| :: tags[k].key != key) ==> FirstValue(tags, key) == ""
    ensures forall k | 0 <= k < |tags| && tags[k].key == key
              && (forall j | 0 <= j < k :: tags[j].key != key) :: FirstValue(tags, key) == tags[k].value
    decreases |tags|
  {
    if tags != [] && tags[0].key != key {
      FirstValueSpec(tags[1..], key);
      assert forall k | 1 <= k < |tags| :: tags[k] == tags[1..][k - 1];
    }
  }

  /** `Instance.Tag`: the value of the tag `key`. */
  function Tag(i: Instance, key: string): string {
    FirstValue(i.tags, key)
  }

  /** `Instance.Name`: the Name tag, or the id when that tag is empty or absent. */
  function Name(i: Instance): string {
    var n := Tag(i, "Name");
    if n == "" then i.id else n
  }

  /** The name read off the tag list: the value of the first pair keyed "Name",
      or the id when there is no such pair or its value is empty. */
  lemma NameFromTags(i: Instance)
    ensures (forall k | 0 <= k < |i.tags| :: i.tags[k].key != "Name") ==> Name(i) == i.id
    ensures forall k | 0 <= k < |i.tags| && i.tags[k].key == "Name"
              && (forall j | 0 <= j < k :: i.tags[j].key != "Name") ::
              Name(i) == if i.tags[k].value == "" then i.id else i.tags[k].value
  {
    FirstValueSpec(i.tags, "Name");
  }

  /** `Instances.Less`. */
  predicate NameLess(a: Instance, b: Instance) {
    Less(Name(a), Name(b))
  }

  /** What `sort.Sort` guarantees: no element is less than one before it. Ties may
      come in any order, since that sort is not stable. */
  predicate SortedByName(s: seq<Instance>) {
    forall i, j | 0 <= i < j < |s| :: !NameLess(s[j], s[i])
  }

  /** No element of `s` is less than `h`. */
  predicate AtLeast(h: Instance, s: seq<Instance>) {
    forall k | 0 <= k < |s| :: !NameLess(s[k], h)
  }

  lemma AtLeastPermuted(h: Instance, s: seq<Instance>, t: seq<Instance>)
    requires AtLeast(h, s) && multiset(s) == multiset(t)
    ensures AtLeast(h, t)
  {
    forall k | 0 <= k < |t| ensures !NameLess(t[k], h) {
      assert t[k] in multiset(s);
    }
  }

  lemma ConsSorted(h: Instance, t: seq<Instance>)
    requires SortedByName(t) && AtLeast(h, t)
    ensures SortedByName([h] + t)
  {
  }

  /** A head that is less than `x` stays in front of any sorted arrangement of
      the tail and `x`. */
  lemma ConsBeforeInserted(h: Instance, x: Instance, t: seq<Instance>, r: seq<Instance>)
    requires AtLeast(h, t) && NameLess(h, x)
    requires SortedByName(r) && multiset(r) == multiset(t) + multiset{x}
    ensures SortedByName([h] + r)
  {
    LessAsymmetric(Name(h), Name(x));
    assert AtLeast(h, t + [x]);
    assert multiset(t + [x]) == multiset(r);
    AtLeastPermuted(h, t + [x], r);
    ConsSorted(h, r);
  }

  /** An element no greater than the head of a sorted list is no greater than
      any of it. */
  lemma AtMostHead(x: Instance, s: seq<Instance>)
    requires SortedByName(s) && s != [] && !NameLess(s[0], x)
    ensures AtLeast(x, s)
  {
    forall k | 0 <= k < |s| ensures !NameLess(s[k], x) {
      if k > 0 {
        NotLessTransitive(Name(x), Name(s[0]), Name(s[k]));
      }
    }
  }

  function Insert(x: Instance, s: seq<Instance>): (r: seq<Instance>)
    requires SortedByName(s)
    ensures SortedByName(r)
    ensures multiset(r) == multiset(s) + multiset{x}
  {
    if s == [] then [x]
    else if NameLess(s[0], x) then
      var t := Insert(x, s[1..]);
      assert s == [s[0]] + s[1..];
      ConsBeforeInserted(s[0], x, s[1..], t);
      [s[0]] + t
    else
      AtMostHead(x, s);
      ConsSorted(x, s);
      [x] + s
  }

  /** The kept list put in ascending name order, as `sort.Sort(instances)` does. */
  function SortByName(s: seq<Instance>): (r: seq<Instance>)
    ensures SortedByName(r)
    ensures multiset(r) == multiset(s)
  {
    if s == [] then []
    else
      assert s == s[..|s| - 1] + [s[|s| - 1]];
      Insert(s[|s| - 1], SortByName(s[..|s| - 1]))
  }

  /** The filter applied to every fetched instance: its name is a host name and,
      when an exclusion pattern is set, does not contain it. */
  predicate Keep(i: Instance, exclude: string) {
    IsHostName(Name(i)) && (exclude == "" || !Contains(Name(i), exclude))
  }

  /** The fetched instances that pass the filter, in fetch order. */
  function Kept(raw: seq<Instance>, exclude: string): (r: seq<Instance>)
    ensures forall x :: x in r <==> x in raw && Keep(x, exclude)
    ensures forall x :: multiset(r)[x] == if Keep(x, exclude) then multiset(raw)[x] else 0
    ensures |r| <= |raw|
  {
    if raw == [] then []
    else
      var last := raw[|raw| - 1];
      assert raw == raw[..|raw| - 1] + [last];
      Kept(raw[..|raw| - 1], exclude) + (if Keep(last, exclude) then [last] else [])
  }

  /** One more fetched instance adds itself at the end when it passes the filter. */
  lemma KeptSnoc(raw: seq<Instance>, n: nat, exclude: string)
    requires n < |raw|
    ensures Kept(raw[..n + 1], exclude)
         == Kept(raw[..n], exclude) + (if Keep(raw[n], exclude) then [raw[n]] else [])
  {
    assert raw[..n + 1][..n] == raw[..n];
    assert raw[..n + 1][n] == raw[n];
  }

  /** Two lists with the same multiset hold the same elements. */
  lemma SameMembers(a: seq<Instance>, b: seq<Instance>)
    requires multiset(a) == multiset(b)
    ensures forall x :: x in a <==> x in b
  {
    forall x ensures x in a <==> x in b {
      assert x in a <==> x in multiset(a);
      assert x in b <==> x in multiset(b);
    }
  }

  /** The sorted kept list holds exactly the fetched instances that pass the filter. */
  lemma SortedKept(raw: seq<Instance>, exclude: string)
    ensures forall x :: x in SortByName(Kept(raw, exclude)) <==> x in raw && Keep(x, exclude)
  {
    SameMembers(SortByName(Kept(raw, exclude)), Kept(raw, exclude));
  }

  /** The pure part of `GetInstances`: filter the fetched instances one by one,
      then sort the kept ones by name. */
  method SelectInstances(raw: seq<Instance>, exclude: string) returns (instances: seq<Instance>)
    ensures SortedByName(instances)
    ensures multiset(instances) == multiset(Kept(raw, exclude))
    ensures forall x :: x in instances <==> x in raw && Keep(x, exclude)
  {
    var kept: seq<Instance> := [];
    var n := 0;
    while n < |raw|
      invariant n <= |raw|
      invariant kept == Kept(raw[..n], exclude)
    {
      var instance := raw[n];
      KeptSnoc(raw, n, exclude);
      if Keep(instance, exclude) {
        kept := kept + [instance];
      }
      n := n + 1;
    }
    assert raw[..n] == raw;
    instances := SortByName(kept);
    SortedKept(raw, exclude);
  }
}
