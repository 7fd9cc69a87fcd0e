/**
 * The human-readable user ids: getNextCustomId increments the counter
 * document of the role's key (creating it on first use with padding 5) and
 * formats the new number after the role's one-letter prefix, zero-padded to
 * the counter's width, e.g. `A00001`.  The `counters` collection is modelled
 * as a map from the unique key to its document.
 */
module UserId {
  import opened Ascii

  /** The roles of a user, with the strings the enum stores. */
  datatype UserRole = Admin | User | Employee

  function RoleName(role: UserRole): string {
    match role
    case Admin => "admin"
    case User => "user"
    case Employee => "employee"
  }

  /** The prefix table has admin and employee; any other role falls back to `U`. */
  function RolePrefix(role: UserRole): (p: string)
    ensures |p| == 1
  {
    match role
    case Admin => "A"
    case Employee => "E"
    case User => "U"
  }

  /** The counter's key: `USER:` and the role upper-cased. */
  function CounterKey(role: UserRole): string {
    "USER:" + Upper(RoleName(role))
  }

  /** A counter document: its key, the prefix and padding set when it was created, the last number issued. */
  datatype Counter = Counter(key: string, prefix: string, padding: nat, nextNumber: nat)

  type Counters = map<string, Counter>

  /** Each counter is stored under its own key. */
  ghost predicate KeysMatch(counters: Counters) {
    forall k :: k in counters ==> counters[k].key == k
  }

  /** `s.padStart(width, "0")`: zeros in front up to `width`; a longer `s` is kept whole. */
  function PadStart(s: string, width: nat): (r: string)
    ensures |r| == if |s| >= width then |s| else width
    ensures r[|r| - |s|..] == s
  {
    if |s| >= width then s else Zeros(width - |s|) + s
  }

  /** The counter after `findOneAndUpdate({key}, {$inc: {nextNumber: 1}, $setOnInsert: {prefix, padding: 5}}, {upsert: true, new: true})`. */
  function Bumped(counters: Counters, role: UserRole): Counter {
    var key := CounterKey(role);
    if key in counters then counters[key].(nextNumber := counters[key].nextNumber + 1)
    else Counter(key, RolePrefix(role), 5, 1)
  }

  /** The id for number `n` at width `padding`. */
  function FormatId(prefix: string, n: nat, padding: nat): string {
    prefix + PadStart(Decimal(n), padding)
  }

  /** getNextCustomId: the counters afterwards and the id returned. */
  function NextCustomId(counters: Counters, role: UserRole): (Counters, string) {
    var doc := Bumped(counters, role);
    (counters[CounterKey(role) := doc], FormatId(RolePrefix(role), doc.nextNumber, doc.padding))
  }

  /** The `counters` collection. */
  class CounterCollection {
    var counters: Counters

    constructor ()
      ensures counters == map[]
    {
      counters := map[];
    }

    /** getNextCustomId: one atomic upsert, then the formatting. */
    method GetNextCustomId(role: UserRole) returns (id: string)
      modifies this
      ensures counters == NextCustomId(old(counters), role).0
      ensures id == NextCustomId(old(counters), role).1
    {
      var key := CounterKey(role);
      var prefix := RolePrefix(role);
      var doc: Counter;
      if key in counters {
        doc := counters[key];
        doc := doc.(nextNumber := doc.nextNumber + 1);
      } else {
        doc := Counter(key, prefix, 5, 1);
      }
      counters := counters[key := doc];
      id := prefix + PadStart(Decimal(doc.nextNumber), doc.padding);
    }
  }

  /* ---------- the counter ---------- */

  /**
   * A call raises the role's counter by one, starting from 1 on a fresh key,
   * keeps its prefix and padding, and leaves every other key as it was.
   */
  lemma NextCustomIdIncrements(counters: Counters, role: UserRole)
    ensures var key := CounterKey(role);
      var after := NextCustomId(counters, role).0;
      && key in after
      && after[key].nextNumber == (if key in counters then counters[key].nextNumber + 1 else 1)
      && after[key].padding == (if key in counters then counters[key].padding else 5)
      && after.Keys == counters.Keys + {key}
      && forall k :: k in counters && k != key ==> after[k] == counters[k]
  {
  }

  /** The counters stay stored under their own keys. */
  lemma NextCustomIdKeepsKeys(counters: Counters, role: UserRole)
    requires KeysMatch(counters)
    ensures KeysMatch(NextCustomId(counters, role).0)
  {
  }

  /** The roles have distinct keys. */
  lemma CounterKeysDistinct(r1: UserRole, r2: UserRole)
    requires r1 != r2
    ensures CounterKey(r1) != CounterKey(r2)
  {
    assert CounterKey(r1)[5] != CounterKey(r2)[5];
  }

  /* ---------- the id ---------- */

  /** The number written after the prefix of an id. */
  function IdNumber(id: string): nat
    requires |id| >= 1 && AllDigits(id[1..])
  {
    DecimalValue(id[1..])
  }

  /**
   * An id is the one-letter prefix and digits, at least `padding` of them,
   * and they read back as the number issued.
   */
  lemma {:induction false} FormatIdReadsBack(prefix: string, n: nat, padding: nat)
    requires |prefix| == 1
    ensures var id := FormatId(prefix, n, padding);
      && id[..1] == prefix
      && |id| - 1 >= padding
      && AllDigits(id[1..])
      && IdNumber(id) == n
  {
    var id := FormatId(prefix, n, padding);
    var d := Decimal(n);
    var p := PadStart(d, padding);
    assert id[1..] == p;
    DecimalRoundTrip(n);
    if |d| < padding {
      LeadingZeros(padding - |d|, d);
    }
  }

  /** Different numbers give different ids. */
  lemma FormatIdInjective(prefix: string, n: nat, m: nat, padding: nat, padding': nat)
    requires |prefix| == 1 && n != m
    ensures FormatId(prefix, n, padding) != FormatId(prefix, m, padding')
  {
    FormatIdReadsBack(prefix, n, padding);
    FormatIdReadsBack(prefix, m, padding');
  }

  /** Ids of different roles differ in their prefix. */
  lemma RolesNeverShareIds(r1: UserRole, r2: UserRole, n: nat, m: nat, padding: nat, padding': nat)
    requires r1 != r2
    ensures FormatId(RolePrefix(r1), n, padding) != FormatId(RolePrefix(r2), m, padding')
  {
    assert FormatId(RolePrefix(r1), n, padding)[0] == RolePrefix(r1)[0];
    assert FormatId(RolePrefix(r2), m, padding')[0] == RolePrefix(r2)[0];
  }

  /** The id returned carries the number the counter now holds. */
  lemma NextCustomIdNumber(counters: Counters, role: UserRole)
    ensures var (after, id) := NextCustomId(counters, role);
      && |id| >= 1 && id[..1] == RolePrefix(role)
      && AllDigits(id[1..])
      && IdNumber(id) == after[CounterKey(role)].nextNumber
  {
    var doc := Bumped(counters, role);
    FormatIdReadsBack(RolePrefix(role), doc.nextNumber, doc.padding);
  }

  /**
   * Two successive calls for the same role return different ids, the second
   * number one more than the first.
   */
  lemma SuccessiveIdsIncrease(counters: Counters, role: UserRole)
    ensures var (c1, id1) := NextCustomId(counters, role);
      var (c2, id2) := NextCustomId(c1, role);
      && AllDigits(id1[1..]) && AllDigits(id2[1..])
      && IdNumber(id2) == IdNumber(id1) + 1
      && id1 != id2
  {
    var (c1, id1) := NextCustomId(counters, role);
    NextCustomIdNumber(counters, role);
    NextCustomIdNumber(c1, role);
    NextCustomIdIncrements(c1, role);
  }

  /** The first admin id of a fresh collection is `A00001`, and the next `A00002`. */
  lemma FirstAdminIds()
    ensures NextCustomId(map[], Admin).1 == "A00001"
    ensures NextCustomId(NextCustomId(map[], Admin).0, Admin).1 == "A00002"
  {
    assert Decimal(1) == "1" && Decimal(2) == "2";
    assert Zeros(4) == "0000";
  }

  /** An issued number wider than the padding is written whole: the 100000th admin id is `A100000`. */
  lemma WideNumberKeptWhole()
    ensures FormatId("A", 100000, 5) == "A100000"
  {
    assert Decimal(100000) == "100000" by {
      assert Decimal(1) == "1";
      assert Decimal(10) == "10";
      assert Decimal(100) == "100";
      assert Decimal(1000) == "1000";
      assert Decimal(10000) == "10000";
    }
  }
}
