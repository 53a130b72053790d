/**
 * The string form of identifiers: `replica:counter`, its splitting at the last colon
 * and the parsing of the counter (id.rs, `split_op_key` and `u64::from_str`).
 */
module Keys {
  import opened Ids
  import opened Wrappers

  function Decimal(n: nat): string {
    if n < 10 then [Digit(n)] else Decimal(n / 10) + [Digit(n % 10)]
  }

  function Digit(d: nat): char
    requires d < 10
  {
    ('0' as int + d) as char
  }

  function Key(id: ElementId): string {
    id.replicaId + ":" + Decimal(id.counter)
  }

  function ParentKey(p: ParentId): string {
    match p
    case Root => "ROOT"
    case Element(id) => Key(id)
  }

  /** `rfind(':')` */
  function LastColon(s: string): (r: Option<nat>)
    ensures r.Some? ==> r.value < |s|
  {
    if s == [] then None
    else if s[|s| - 1] == ':' then Some(|s| - 1)
    else LastColon(s[..|s| - 1])
  }

  function SplitOpKey(s: string): Option<(string, string)> {
    match LastColon(s)
    case None => None
    case Some(i) => Some((s[..i], s[i + 1..]))
  }

  function Digits(s: string): Option<nat> {
    if s == [] then Some(0)
    else
      var c := s[|s| - 1];
      match Digits(s[..|s| - 1])
      case Some(v) => if '0' <= c <= '9' then Some(10 * v + (c as int - '0' as int)) else None
      case None => None
  }

  /** `str::parse::<u64>`: an optional plus sign and at least one digit, within range. */
  function ParseU64(s: string): Option<u64> {
    var body := if s != [] && s[0] == '+' then s[1..] else s;
    if body == [] then None
    else match Digits(body)
      case Some(v) => if v <= U64_MAX then Some(v) else None
      case None => None
  }

  lemma {:induction false} DecimalShape(n: nat)
    ensures |Decimal(n)| > 0
    ensures forall i :: 0 <= i < |Decimal(n)| ==> '0' <= Decimal(n)[i] <= '9'
    ensures Digits(Decimal(n)) == Some(n)
  {
    var d := Decimal(n);
    if n >= 10 {
      DecimalShape(n / 10);
      assert d[..|d| - 1] == Decimal(n / 10);
    } else {
      assert d[..|d| - 1] == [];
    }
  }

  ghost function Pow10(k: nat): (p: nat)
    ensures p > 0
  {
    if k == 0 then 1 else 10 * Pow10(k - 1)
  }

  lemma DivideTwice(n: nat, m: nat)
    requires m > 0
    ensures n / 10 / m == n / (10 * m)
  {
    var q := n / 10;
    var a, b := q / m, q % m;
    assert q == m * a + b && n == 10 * q + n % 10;
    assert n == (10 * m) * a + (10 * b + n % 10);
    assert 10 * b + n % 10 < 10 * m;
    QuotientIs(n, 10 * m, a, 10 * b + n % 10);
  }

  lemma QuotientIs(n: nat, m: nat, a: nat, r: nat)
    requires m > 0 && n == m * a + r && r < m
    ensures n / m == a
  {
    var q := n / m;
    assert n == m * q + n % m;
    if q > a { AtLeastOnce(m, q - a); }
    if a > q { AtLeastOnce(m, a - q); }
  }

  lemma AtLeastOnce(m: nat, k: nat)
    requires k >= 1
    ensures m * k >= m
  {
    assert m * k == m * (k - 1) + m;
  }

  /** The decimal digits of `n`: at each position, counted from the right, the digit it should be. */
  ghost predicate Spells(d: string, n: nat) {
    && d != [] && (n > 0 ==> d[0] != '0') && (n < 10 ==> |d| == 1)
    && forall k {:trigger Pow10(k)} :: 0 <= k < |d| ==> d[|d| - 1 - k] as int == '0' as int + n / Pow10(k) % 10
  }

  lemma {:induction false} DecimalSpells(n: nat)
    ensures Spells(Decimal(n), n)
  {
    if n < 10 {
      assert Pow10(0) == 1;
    } else {
      DecimalSpells(n / 10);
      OneMoreDigit(Decimal(n / 10), n);
    }
  }

  lemma OneMoreDigit(d: string, n: nat)
    requires n >= 10 && Spells(d, n / 10)
    ensures Spells(d + [Digit(n % 10)], n)
  {
    var e := d + [Digit(n % 10)];
    forall k | 0 <= k < |e| ensures e[|e| - 1 - k] as int == '0' as int + n / Pow10(k) % 10 {
      if k == 0 {
        assert Pow10(0) == 1;
      } else {
        DivideTwice(n, Pow10(k - 1));
        assert e[|e| - 1 - k] == d[|d| - 1 - (k - 1)];
      }
    }
  }

  /** A key is the replica id, a colon, and the decimal digits of the counter, without leading zeros. */
  lemma KeyForm(id: ElementId)
    ensures |Key(id)| > |id.replicaId| + 1
    ensures Key(id)[..|id.replicaId|] == id.replicaId && Key(id)[|id.replicaId|] == ':'
    ensures var d, n := Key(id)[|id.replicaId| + 1..], id.counter;
            && (n > 0 ==> d[0] != '0') && (n == 0 ==> d == "0")
            && forall k {:trigger Pow10(k)} :: 0 <= k < |d| ==>
                 d[|d| - 1 - k] as int == '0' as int + n / Pow10(k) % 10
  {
    DecimalSpells(id.counter);
    assert Key(id)[|id.replicaId| + 1..] == Decimal(id.counter);
    assert Pow10(0) == 1;
  }

  lemma {:induction false} LastColonAfter(s: string, t: string)
    requires ':' !in t
    ensures LastColon(s + ":" + t) == Some(|s|)
  {
    var w := s + ":" + t;
    if t != [] {
      assert w[|w| - 1] == t[|t| - 1];
      assert w[..|w| - 1] == s + ":" + t[..|t| - 1];
      LastColonAfter(s, t[..|t| - 1]);
    }
  }

  /** Splitting a key at its last colon recovers the identifier, whatever the replica string. */
  lemma KeyRoundTrip(id: ElementId)
    ensures SplitOpKey(Key(id)) == Some((id.replicaId, Decimal(id.counter)))
    ensures ParseU64(Decimal(id.counter)) == Some(id.counter)
  {
    DecimalShape(id.counter);
    LastColonAfter(id.replicaId, Decimal(id.counter));
    var k := Key(id);
    assert k[..|id.replicaId|] == id.replicaId;
    assert k[|id.replicaId| + 1..] == Decimal(id.counter);
  }

  /** Distinct identifiers have distinct keys. */
  lemma KeyInjective(a: ElementId, b: ElementId)
    requires Key(a) == Key(b)
    ensures a == b
  {
    KeyRoundTrip(a);
    KeyRoundTrip(b);
  }

  /** No identifier's key is the root key, so anchors and their keys correspond one to one. */
  lemma ParentKeyInjective(p: ParentId, q: ParentId)
    ensures ParentKey(p) == ParentKey(q) <==> p == q
  {
    match p
    case Root => RootKeyIsNoId(q);
    case Element(a) =>
      match q
      case Root => RootKeyIsNoId(p);
      case Element(b) => if Key(a) == Key(b) { KeyInjective(a, b); }
  }

  lemma RootKeyIsNoId(p: ParentId)
    ensures ParentKey(p) == "ROOT" <==> p == Root
  {
    if p.Element? {
      assert ParentKey(p)[|p.id.replicaId|] == ':';
    }
  }
}
