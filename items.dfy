/**
 * Cache items and their per-item options (cache.go:39-82).
 *
 * Time is an explicit integer `now` in place of the process-wide `nowFunc`;
 * a deadline is an absolute integer timestamp.
 */
module Items {

  /** An item's absolute deadline. `NoDeadline` stands for Go's zero
      `time.Time`, which `Expired` reads as "never expires". */
  datatype Deadline = NoDeadline | At(t: int)

  /** A stored value with its key and optional deadline. Items are built
      fresh on every `Set` and are never updated afterwards. */
  datatype Item<K, V> = Item(key: K, value: V, expiration: Deadline)
  {
    /** Whether the item has expired at time `now`: it has a deadline and
        `now` is strictly after it. */
    predicate Expired(now: int)
      ensures expiration == NoDeadline ==> !Expired(now)
      ensures expiration.At? ==> (Expired(now) <==> now > expiration.t)
    {
      match expiration
      case NoDeadline => false
      case At(t) => now > t
    }
  }

  /** An item without a deadline is never expired. */
  lemma NoDeadlineNeverExpires<K, V>(item: Item<K, V>, now: int)
    requires item.expiration == NoDeadline
    ensures !item.Expired(now)
  {
  }

  /** With a deadline, expiry holds exactly at the instants after it, so an
      expired item stays expired as time moves on. */
  lemma ExpiredExactlyAfterDeadline<K, V>(item: Item<K, V>, t: int, now: int, later: int)
    requires item.expiration == At(t)
    requires now <= later
    ensures item.Expired(now) <==> now > t
    ensures item.Expired(now) ==> item.Expired(later)
  {
  }

  /** The record the item options edit; a new one has no deadline. */
  datatype ItemOptions = ItemOptions(expiration: Deadline)

  /** An item option. `WithExpiration(exp)` is the only one; `exp` is a
      duration in the same unit as the timestamps. */
  datatype ItemOption = WithExpiration(exp: int)
  {
    /** Runs the option at time `now`. The deadline becomes `now + exp`
        whatever the sign of `exp`. */
    function Apply(o: ItemOptions, now: int): (r: ItemOptions)
      ensures r.expiration == At(now + exp)
    {
      o.(expiration := At(now + exp))
    }
  }

  /** The deadline a list of options gives, stated independently of the
      loop that applies them: none without options, otherwise the one set
      by the last option. */
  function DeadlineFor(opts: seq<ItemOption>, now: int): (d: Deadline)
    ensures d == NoDeadline <==> opts == []
    ensures opts != [] ==> d == opts[|opts| - 1].Apply(ItemOptions(NoDeadline), now).expiration
  {
    if opts == [] then NoDeadline else At(now + opts[|opts| - 1].exp)
  }

  /** `newItem`: starts from empty options, applies every option in order,
      and wraps key, value and the resulting deadline. */
  method NewItem<K, V>(key: K, val: V, opts: seq<ItemOption>, now: int) returns (item: Item<K, V>)
    ensures item.key == key && item.value == val
    ensures opts == [] ==> item.expiration == NoDeadline
    ensures opts != [] ==> item.expiration == At(now + opts[|opts| - 1].exp)
    ensures item.expiration == DeadlineFor(opts, now)
  {
    var o := ItemOptions(NoDeadline);
    for i := 0 to |opts|
      invariant o.expiration == DeadlineFor(opts[..i], now)
    {
      o := opts[i].Apply(o, now);
    }
    assert opts[..|opts|] == opts;
    item := Item(key, val, o.expiration);
  }

  /** The later of two `WithExpiration` options wins. */
  lemma LastExpirationWins(first: ItemOption, second: ItemOption, now: int)
    ensures DeadlineFor([first, second], now) == At(now + second.exp)
  {
  }

  /** A zero or negative duration does not mean "no expiration": the item
      gets a deadline, is expired one instant later, and with a negative
      duration is expired at once. */
  lemma NonPositiveExpirationExpires<K, V>(key: K, val: V, exp: int, now: int)
    requires exp <= 0
    ensures Item(key, val, DeadlineFor([WithExpiration(exp)], now)).Expired(now + 1)
    ensures exp < 0 ==> Item(key, val, DeadlineFor([WithExpiration(exp)], now)).Expired(now)
  {
  }
}
