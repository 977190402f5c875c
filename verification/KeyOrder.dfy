/** The order of ordered-map keys, and the order in which such a map lists them. */
module KeyOrder {

  /** A two-part key, compared on `major` first. */
  datatype Key = Key(major: string, minor: string)

  predicate StringLess(a: string, b: string) {
    b != [] && (a == [] || a[0] < b[0] || (a[0] == b[0] && StringLess(a[1..], b[1..])))
  }

  predicate Less(a: Key, b: Key) {
    StringLess(a.major, b.major) || (a.major == b.major && StringLess(a.minor, b.minor))
  }

  lemma {:induction false} StringLessTrichotomy(a: string, b: string)
    ensures (a == b && !StringLess(a, b) && !StringLess(b, a))
         || (a != b && StringLess(a, b) != StringLess(b, a))
  {
    if a != [] && b != [] && a[0] == b[0] {
      StringLessTrichotomy(a[1..], b[1..]);
      assert a == [a[0]] + a[1..] && b == [b[0]] + b[1..];
    }
  }

  lemma {:induction false} StringLessTransitive(a: string, b: string, c: string)
    requires StringLess(a, b) && StringLess(b, c)
    ensures StringLess(a, c)
  {
    if a != [] && a[0] == b[0] == c[0] {
      StringLessTransitive(a[1..], b[1..], c[1..]);
    }
  }

  lemma {:induction false} LessTrichotomy(a: Key, b: Key)
    ensures (a == b && !Less(a, b) && !Less(b, a)) || (a != b && Less(a, b) != Less(b, a))
  {
    StringLessTrichotomy(a.major, b.major);
    StringLessTrichotomy(a.minor, b.minor);
  }

  lemma {:induction false} LessTransitive(a: Key, b: Key, c: Key)
    requires Less(a, b) && Less(b, c)
    ensures Less(a, c)
  {
    if StringLess(a.major, b.major) && StringLess(b.major, c.major) {
      StringLessTransitive(a.major, b.major, c.major);
    } else if a.major == b.major == c.major {
      StringLessTransitive(a.minor, b.minor, c.minor);
    }
  }

  predicate IsLeast(k: Key, keys: set<Key>) {
    k in keys && forall other | other in keys && other != k :: Less(k, other)
  }

  lemma {:induction false} LeastExists(keys: set<Key>)
    requires keys != {}
    ensures exists k :: IsLeast(k, keys)
    decreases |keys|
  {
    var x :| x in keys;
    if keys == {x} {
      assert IsLeast(x, keys);
    } else {
      LeastExists(keys - {x});
      var y :| IsLeast(y, keys - {x});
      LessTrichotomy(x, y);
      if Less(x, y) {
        forall other | other in keys && other != x && other != y
          ensures Less(x, other)
        {
          LessTransitive(x, y, other);
        }
        assert IsLeast(x, keys);
      } else {
        assert IsLeast(y, keys);
      }
    }
  }

  predicate Increasing(keys: seq<Key>) {
    forall i, j | 0 <= i < j < |keys| :: Less(keys[i], keys[j])
  }

  lemma {:induction false} LeastUnique(a: Key, b: Key, keys: set<Key>)
    requires IsLeast(a, keys) && IsLeast(b, keys)
    ensures a == b
  {
    LessTrichotomy(a, b);
  }

  function Least(keys: set<Key>): (k: Key)
    requires keys != {}
    ensures IsLeast(k, keys)
  {
    LeastExists(keys);
    assert forall a, b | IsLeast(a, keys) && IsLeast(b, keys) :: a == b by {
      forall a, b | IsLeast(a, keys) && IsLeast(b, keys) ensures a == b { LeastUnique(a, b, keys); }
    }
    var k :| k in keys && IsLeast(k, keys);
    k
  }

  /** The listing order of an ordered map whose key set is `keys`. */
  function Ascending(keys: set<Key>): (listing: seq<Key>)
    decreases |keys|
  {
    if keys == {} then []
    else
      var k := Least(keys);
      [k] + Ascending(keys - {k})
  }

  lemma {:induction false} AscendingLists(keys: set<Key>)
    ensures Increasing(Ascending(keys))
    ensures forall k :: k in Ascending(keys) <==> k in keys
    decreases |keys|
  {
    if keys != {} {
      var k := Least(keys);
      AscendingLists(keys - {k});
      var rest := Ascending(keys - {k});
      assert forall i | 0 <= i < |rest| :: rest[i] in rest && Less(k, rest[i]);
    }
  }

  lemma {:induction false} IncreasingDistinct(keys: seq<Key>)
    requires Increasing(keys)
    ensures forall i, j | 0 <= i < j < |keys| :: keys[i] != keys[j]
  {
    forall i, j | 0 <= i < j < |keys|
      ensures keys[i] != keys[j]
    {
      LessTrichotomy(keys[i], keys[j]);
    }
  }

  function Elements(keys: seq<Key>): set<Key> {
    set k | k in keys
  }

  lemma {:induction false} DistinctCount(keys: seq<Key>)
    requires forall i, j | 0 <= i < j < |keys| :: keys[i] != keys[j]
    ensures |Elements(keys)| == |keys|
  {
    if keys != [] {
      DistinctCount(keys[1..]);
      assert Elements(keys) == {keys[0]} + Elements(keys[1..]);
    }
  }

  /** Where `range(lower..)` starts in the listing: the first key not below `lower`. */
  function RangeStart(listing: seq<Key>, lower: Key): (start: nat)
    ensures start <= |listing|
  {
    if listing == [] || !Less(listing[0], lower) then 0 else 1 + RangeStart(listing[1..], lower)
  }

  lemma {:induction false} RangeStartSplits(listing: seq<Key>, lower: Key)
    requires Increasing(listing)
    ensures forall i | 0 <= i < RangeStart(listing, lower) :: Less(listing[i], lower)
    ensures forall i | RangeStart(listing, lower) <= i < |listing| :: !Less(listing[i], lower)
  {
    if listing != [] {
      if Less(listing[0], lower) {
        RangeStartSplits(listing[1..], lower);
      } else {
        forall i | 0 < i < |listing|
          ensures !Less(listing[i], lower)
        {
          if Less(listing[i], lower) { LessTransitive(listing[0], listing[i], lower); }
        }
      }
    }
  }

  /** What a scan of the range from `(major, "")` may rely on: no key repeats, no key of `major`
      comes before the range, and once the range leaves `major` it never returns to it. */
  ghost predicate Scannable(listing: seq<Key>, major: string, start: nat) {
    (forall i, j | 0 <= i < j < |listing| :: listing[i] != listing[j])
    && (forall i | 0 <= i < start && i < |listing| :: listing[i].major != major)
    && (forall i, j | start <= i < j < |listing| :: listing[i].major != major ==> listing[j].major != major)
  }

  lemma {:induction false} RangeIsScannable(listing: seq<Key>, major: string)
    requires Increasing(listing)
    ensures Scannable(listing, major, RangeStart(listing, Key(major, "")))
  {
    var lower := Key(major, "");
    var start := RangeStart(listing, lower);
    RangeStartSplits(listing, lower);
    IncreasingDistinct(listing);
    forall i | 0 <= i < start
      ensures listing[i].major != major
    {
      StringLessTrichotomy(listing[i].major, major);
    }
    forall i, j | start <= i < j < |listing| && listing[i].major != major
      ensures listing[j].major != major
    {
      StringLessTrichotomy(listing[i].major, major);
      StringLessTrichotomy(listing[i].major, listing[j].major);
    }
  }

  lemma {:induction false} SubsetSize<T>(small: set<T>, large: set<T>)
    requires small <= large
    ensures |small| <= |large|
    decreases small
  {
    if small != {} {
      var k :| k in small;
      SubsetSize(small - {k}, large - {k});
    }
  }
}
