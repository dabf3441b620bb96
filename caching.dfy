/** The key/value cache used through Laravel's `Cache` facade: the three key
    shapes, their string names, entries with an expiry time and `forget`. */
module Caching {

  /** The three key shapes: `posts`, `post_{id}` and `search_{query}`. */
  datatype Key = AllPosts | PostKey(id: nat) | SearchKey(query: string)

  /** `now()->addMinutes(10)`: an entry lives 600 seconds after it is stored. */
  const TTL: int := 600

  /** A cached value and the clock time from which it counts as expired. */
  datatype Entry<V> = Entry(value: V, expires: int)

  type Store<V> = map<Key, Entry<V>>

  /** `Cache::remember` finds a value: the key is present and not yet expired. */
  predicate Live<V>(c: Store<V>, k: Key, now: int)
  {
    k in c && now < c[k].expires
  }

  /** `Cache::forget(k)`: no error when the key is absent. */
  function Forget<V>(c: Store<V>, k: Key): (r: Store<V>)
    ensures k !in r
    ensures forall j :: j != k ==> (j in r <==> j in c)
    ensures forall j :: j in r ==> r[j] == c[j]
  {
    c - {k}
  }

  /** Forgetting a key twice (a model hook and then the controller) is forgetting it once. */
  lemma ForgetIdempotent<V>(c: Store<V>, k: Key)
    ensures Forget(Forget(c, k), k) == Forget(c, k)
  {
  }

  function Digit(d: nat): char
    requires d < 10
  {
    "0123456789"[d]
  }

  /** The decimal rendering PHP uses when it interpolates an integer id. */
  function NatToString(n: nat): (s: string)
    ensures |s| > 0
  {
    if n < 10 then [Digit(n)] else NatToString(n / 10) + [Digit(n % 10)]
  }

  lemma {:induction false} NatToStringInjective(a: nat, b: nat)
    ensures NatToString(a) == NatToString(b) ==> a == b
  {
    if a >= 10 && b >= 10 {
      var sa, sb := NatToString(a / 10), NatToString(b / 10);
      assert NatToString(a) == sa + [Digit(a % 10)];
      assert NatToString(b) == sb + [Digit(b % 10)];
      if NatToString(a) == NatToString(b) {
        assert |sa| == |sb|;
        assert sa == NatToString(a)[..|sa|] && sb == NatToString(b)[..|sb|];
        NatToStringInjective(a / 10, b / 10);
        assert Digit(a % 10) == NatToString(a)[|sa|] == Digit(b % 10);
      }
    } else if a >= 10 {
      assert |NatToString(a)| == |NatToString(a / 10)| + 1 > 1;
    } else if b >= 10 {
      assert |NatToString(b)| == |NatToString(b / 10)| + 1 > 1;
    }
  }

  /** The literal string key the controllers pass to the cache. */
  function KeyName(k: Key): string
  {
    match k
    case AllPosts => "posts"
    case PostKey(id) => "post_" + NatToString(id)
    case SearchKey(q) => "search_" + q
  }

  /** Distinct keys have distinct names: forgetting `posts` or `post_{id}` can never
      remove a search result, and no query can name a post entry. */
  lemma KeyNameInjective(a: Key, b: Key)
    ensures KeyName(a) == KeyName(b) ==> a == b
  {
    match a
    case AllPosts =>
      match b {
        case AllPosts =>
        case PostKey(id) => assert KeyName(b)[4] == '_' != 's' == KeyName(a)[4];
        case SearchKey(q) => assert KeyName(b)[0] == 's' != 'p' == KeyName(a)[0];
      }
    case PostKey(i) =>
      match b {
        case AllPosts => assert KeyName(a)[4] == '_' != 's' == KeyName(b)[4];
        case PostKey(j) =>
          assert NatToString(i) == KeyName(a)[5..] && NatToString(j) == KeyName(b)[5..];
          NatToStringInjective(i, j);
        case SearchKey(q) => assert KeyName(a)[0] == 'p' != 's' == KeyName(b)[0];
      }
    case SearchKey(q) =>
      match b {
        case AllPosts => assert KeyName(a)[0] == 's' != 'p' == KeyName(b)[0];
        case PostKey(j) => assert KeyName(a)[0] == 's' != 'p' == KeyName(b)[0];
        case SearchKey(q') => assert q == KeyName(a)[7..] && q' == KeyName(b)[7..];
      }
  }
}
