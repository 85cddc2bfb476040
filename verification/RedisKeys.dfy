/** The Redis keys of sessions and cached users, and deleting by prefix. */
module RedisKeys {
  import opened Decimal

  type Sid = string

  datatype Key =
    | Access(uid: nat, sid: Sid)
    | Extra(uid: nat, sid: Sid)
    | Refresh(uid: nat, sid: Sid)
    | Cached(uid: nat)

  datatype Space = AccessKeys | RefreshKeys | CachedKeys

  function Head(k: Key): string {
    match k
    case Access(_, _) => "mc:token:"
    case Extra(_, _) => "mc:token_extra_info:"
    case Refresh(_, _) => "mc:refresh_token:"
    case Cached(_) => "mc:user:"
  }

  /** The key as Redis sees it. */
  function Text(k: Key): string {
    Head(k) + Digits(k.uid) + (if k.Cached? then "" else ":" + k.sid)
  }

  /** The prefix given to `delete_prefix` for one user. */
  function PrefixText(space: Space, uid: nat): string {
    (match space
     case AccessKeys => "mc:token:"
     case RefreshKeys => "mc:refresh_token:"
     case CachedKeys => "mc:user:") + Digits(uid)
  }

  /** Deleting by the id of one user also hits every user whose id starts with the same digits. */
  predicate Hits(uid: nat, other: nat) {
    Digits(uid) <= Digits(other)
  }

  lemma OneHitsTwelve()
    ensures Hits(1, 12) && !Hits(1, 21)
  {
    assert Digits(1)[0] == '1' && Digits(12) == Digits(1) + [Digit(2)] && Digits(21) == Digits(2) + [Digit(1)];
    assert Digits(21)[0] == '2';
  }

  predicate Matches(space: Space, uid: nat, k: Key) {
    && Hits(uid, k.uid)
    && match space
       case AccessKeys => k.Access?
       case RefreshKeys => k.Refresh?
       case CachedKeys => k.Cached?
  }

  // ---------------------------------------------------------------- the structure is faithful to the texts

  lemma DigitsHaveNoColon(n: nat)
    ensures ':' !in Digits(n) && |Digits(n)| > 0
  {
    DigitsAreDigits(n);
  }

  function UpToColon(x: string): string {
    if x == "" || x[0] == ':' then "" else [x[0]] + UpToColon(x[1..])
  }

  /** Where the digits end is visible: they are followed by a colon or by the end of the key. */
  lemma {:induction false} DigitsDelimited(a: string, s: string)
    requires ':' !in a && (s == "" || s[0] == ':')
    ensures UpToColon(a + s) == a
  {
    if a == "" {
      assert a + s == s;
    } else {
      DigitsDelimited(a[1..], s);
      assert (a + s)[1..] == a[1..] + s;
    }
  }

  lemma {:induction false} PrefixStopsAtColon(a: string, y: string)
    requires ':' !in a && a <= y
    ensures a <= UpToColon(y)
  {
    if a != "" {
      PrefixStopsAtColon(a[1..], y[1..]);
      assert a == [a[0]] + a[1..];
    }
  }

  lemma {:induction false} UpToColonPrefix(y: string)
    ensures UpToColon(y) <= y
  {
    if y != "" && y[0] != ':' {
      UpToColonPrefix(y[1..]);
      assert y == [y[0]] + y[1..];
    }
  }

  lemma HeadsApart(h: string, x: string, g: string, y: string)
    requires exists i :: 0 <= i < |h| && i < |g| && h[i] != g[i]
    ensures h + x != g + y && !(h + x <= g + y)
  {
    var i :| 0 <= i < |h| && i < |g| && h[i] != g[i];
    assert (h + x)[i] == h[i] && (g + y)[i] == g[i];
  }

  /** What follows the head of a key: the user id, and the session if there is one. */
  function Tail(k: Key): string {
    Digits(k.uid) + Session(k)
  }

  function Session(k: Key): string {
    if k.Cached? then "" else ":" + k.sid
  }

  lemma TailParts(k: Key)
    ensures Text(k) == Head(k) + Tail(k)
    ensures UpToColon(Tail(k)) == Digits(k.uid)
    ensures Tail(k)[|Digits(k.uid)|..] == Session(k)
  {
    DigitsHaveNoColon(k.uid);
    DigitsDelimited(Digits(k.uid), Session(k));
  }

  predicate SameSpace(k: Key, l: Key) {
    match k
    case Access(_, _) => l.Access?
    case Extra(_, _) => l.Extra?
    case Refresh(_, _) => l.Refresh?
    case Cached(_) => l.Cached?
  }

  lemma HeadsDiffer(k: Key, l: Key)
    ensures SameSpace(k, l) || exists i :: 0 <= i < |Head(k)| && i < |Head(l)| && Head(k)[i] != Head(l)[i]
  {
    var h, g := Head(k), Head(l);
    assert SameSpace(k, l) || h[3] != g[3] || h[8] != g[8];
  }

  /** Two keys are the same exactly when their texts are. */
  lemma TextInjective(k: Key, l: Key)
    ensures Text(k) == Text(l) ==> k == l
  {
    TailParts(k);
    TailParts(l);
    HeadsDiffer(k, l);
    if SameSpace(k, l) {
      SameTails(Head(k), Tail(k), Tail(l));
      DigitsInjective(k.uid, l.uid);
      assert Session(k) == Session(l) ==> k.Cached? || (":" + k.sid)[1..] == (":" + l.sid)[1..];
    } else {
      HeadsApart(Head(k), Tail(k), Head(l), Tail(l));
    }
  }

  lemma SameTails(h: string, x: string, y: string)
    ensures h + x == h + y ==> x == y
    ensures h + x <= h + y <==> x <= y
  {
    assert (h + x)[|h|..] == x && (h + y)[|h|..] == y;
    if h + x <= h + y {
      forall i | 0 <= i < |x| ensures x[i] == y[i] {
        assert (h + x)[|h| + i] == (h + y)[|h| + i];
      }
    }
  }

  function Example(space: Space, uid: nat): Key {
    match space
    case AccessKeys => Access(uid, "")
    case RefreshKeys => Refresh(uid, "")
    case CachedKeys => Cached(uid)
  }

  /** A prefix matches exactly the keys of its own space whose user id starts with the same digits. */
  lemma MatchesIsPrefix(space: Space, uid: nat, k: Key)
    ensures PrefixText(space, uid) <= Text(k) <==> Matches(space, uid, k)
  {
    var e := Example(space, uid);
    assert PrefixText(space, uid) == Head(e) + Digits(uid);
    TailParts(k);
    HeadsDiffer(e, k);
    if SameSpace(e, k) {
      SameTails(Head(e), Digits(uid), Tail(k));
      DigitsHaveNoColon(uid);
      UpToColonPrefix(Tail(k));
      if Digits(uid) <= Tail(k) {
        PrefixStopsAtColon(Digits(uid), Tail(k));
      }
    } else {
      HeadsApart(Head(e), Digits(uid), Head(k), Tail(k));
    }
  }

  /** No key of a session or of a cached user is spelled like a bare prefix of the token spaces. */
  lemma PrefixIsNoSessionKey(space: Space, uid: nat, k: Key)
    requires space != CachedKeys
    ensures PrefixText(space, uid) != Text(k)
  {
    var e := Example(space, uid);
    assert PrefixText(space, uid) == Head(e) + Digits(uid);
    TailParts(k);
    HeadsDiffer(e, k);
    if SameSpace(e, k) {
      SameTails(Head(e), Digits(uid), Tail(k));
      DigitsHaveNoColon(uid);
      assert Tail(k)[|Digits(k.uid)|] == ':';
    } else {
      HeadsApart(Head(e), Digits(uid), Head(k), Tail(k));
    }
  }

  /** With the colon behind the id, a prefix matches the sessions of that user only. */
  lemma SessionPrefix(uid: nat, k: Key)
    ensures "mc:token:" + (Digits(uid) + ":") <= Text(k) <==> k.Access? && k.uid == uid
  {
    var e := Access(uid, "");
    var h := Head(e);
    TailParts(k);
    TailParts(e);
    HeadsDiffer(e, k);
    DigitsHaveNoColon(uid);
    DigitsInjective(uid, k.uid);
    if SameSpace(e, k) {
      SameTails(h, Digits(uid) + ":", Tail(k));
      if Digits(uid) + ":" <= Tail(k) {
        var rest := Tail(k)[|Digits(uid)|..];
        assert rest[0] == (Digits(uid) + ":")[|Digits(uid)|];
        assert Tail(k) == Digits(uid) + rest;
        DigitsDelimited(Digits(uid), rest);
      }
    } else {
      HeadsApart(h, Digits(uid) + ":", Head(k), Tail(k));
    }
  }

  // ---------------------------------------------------------------- the store

  /** What `delete_prefix` leaves. */
  function Without<V>(store: map<Key, V>, space: Space, uid: nat, exclude: set<Key>): map<Key, V> {
    map k | k in store && (Matches(space, uid, k) ==> k in exclude) :: store[k]
  }

  lemma HasKey(keys: set<Key>)
    ensures keys != {} ==> exists k :: k in keys
  {
    assert (forall k: Key :: k !in keys) ==> keys == {};
  }

  class RedisCli<V> {
    var store: map<Key, V>

    constructor ()
      ensures store == map[]
    {
      store := map[];
    }

    method Delete(keys: set<Key>)
      modifies this
      ensures store == old(store) - keys
    {
      store := store - keys;
    }

    method Set(key: Key, value: V)
      modifies this
      ensures store == old(store)[key := value]
    {
      store := store[key := value];
    }

    /**
     * `scanned` is what SCAN yields: every matching key that is there, in any order, perhaps repeated, perhaps
     * with keys that are gone by now. Whatever the batch size, exactly the matching keys that are not excluded
     * are deleted.
     */
    method DeletePrefix(space: Space, uid: nat, exclude: set<Key>, batchSize: int, scanned: seq<Key>)
      requires forall k :: k in store && Matches(space, uid, k) ==> k in scanned
      requires forall k :: k in scanned ==> Matches(space, uid, k)
      modifies this
      ensures store == Without(old(store), space, uid, exclude)
    {
      var batch: seq<Key> := [];
      for i := 0 to |scanned|
        invariant forall k :: k in batch ==> k in scanned[..i] && k !in exclude
        invariant forall k :: k in scanned[..i] && k !in exclude ==> k in batch || k !in store
        invariant forall k :: k in store ==> k in old(store) && store[k] == old(store)[k]
        invariant forall k :: k in old(store) && k !in store ==> k in scanned[..i] && k !in exclude
      {
        var key := scanned[i];
        assert scanned[..i + 1] == scanned[..i] + [key];
        if key !in exclude {
          batch := batch + [key];
          if |batch| >= batchSize {
            Delete(set k | k in batch);
            batch := [];
          }
        }
      }
      assert scanned[..|scanned|] == scanned;
      if batch != [] {
        Delete(set k | k in batch);
      }
      assert store == Without(old(store), space, uid, exclude);
    }

    /** Every key that matches the prefix now, each once. */
    method Scan(space: Space, uid: nat) returns (scanned: seq<Key>)
      ensures forall k :: k in scanned <==> k in store && Matches(space, uid, k)
      ensures forall i, j :: 0 <= i < j < |scanned| ==> scanned[i] != scanned[j]
    {
      scanned := [];
      var rest := set k | k in store && Matches(space, uid, k);
      while rest != {}
        invariant forall k :: k in rest ==> k in store && Matches(space, uid, k) && k !in scanned
        invariant forall k :: k in store && Matches(space, uid, k) ==> k in rest || k in scanned
        invariant forall k :: k in scanned ==> k in store && Matches(space, uid, k)
        invariant forall i, j :: 0 <= i < j < |scanned| ==> scanned[i] != scanned[j]
      {
        HasKey(rest);
        var key :| key in rest;
        rest := rest - {key};
        scanned := scanned + [key];
      }
    }

    /** `delete_prefix` with its default batch size. */
    method DeleteUserKeys(space: Space, uid: nat, exclude: set<Key>)
      modifies this
      ensures store == Without(old(store), space, uid, exclude)
    {
      var scanned := Scan(space, uid);
      DeletePrefix(space, uid, exclude, 1000, scanned);
    }

    /** What `get_prefix` finds under the token prefix, the id and a colon: exactly the user's live sessions. */
    method GetSessions(uid: nat) returns (found: set<Key>)
      ensures forall k :: k in found <==> k in store && k.Access? && k.uid == uid
    {
      var prefix := "mc:token:" + (Digits(uid) + ":");
      found := set k | k in store && prefix <= Text(k);
      forall k | k in store ensures k in found <==> k.Access? && k.uid == uid {
        SessionPrefix(uid, k);
      }
    }
  }
}
