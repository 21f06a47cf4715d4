/** The ledger key of a booking request: `_booking_key` and its call in create_booking
    (src/booking_mcp/queries.py). */
module BookingKey {
  import opened Schema
  import opened Serial
  import Fields
  import Text
  import Calendar

  /** The fields that make two requests the same booking. */
  datatype Material = Material(
    address: Option<string>,
    date: string,
    email: Option<string>,
    name: Option<string>,
    phone: Option<string>,
    service: Option<string>,
    staffId: Option<string>,
    time: string)

  const NAMES: seq<string> := ["address", "date", "email", "name", "phone", "service", "staff_id", "time"]

  /** How an f-string prints a value that may be None. */
  function Shown(v: Option<string>): string {
    if v.Some? then v.value else "None"
  }

  /** The printed values, in the order of NAMES. */
  function Values(m: Material): (vs: seq<string>)
    ensures |vs| == |NAMES|
  {
    [Shown(m.address), m.date, Shown(m.email), Shown(m.name),
     Shown(m.phone), Shown(m.service), Shown(m.staffId), m.time]
  }

  /** The keyword arguments of `_booking_key`. */
  function Keywords(m: Material): (fields: map<string, string>)
    ensures forall n :: n in fields <==> n in NAMES
  {
    var vs := Values(m);
    map["address" := vs[0], "date" := vs[1], "email" := vs[2], "name" := vs[3],
        "phone" := vs[4], "service" := vs[5], "staff_id" := vs[6], "time" := vs[7]]
  }

  function Join(ps: seq<string>): string {
    if |ps| == 0 then "" else if |ps| == 1 then ps[0] else ps[0] + "|" + Join(ps[1..])
  }

  /** `order` is the result of sorted() on the keywords. */
  ghost predicate SortedNames(order: seq<string>, names: set<string>) {
    && (forall i, j | 0 <= i < j < |order| :: Text.Before(order[i], order[j]))
    && (forall n :: n in order <==> n in names)
  }

  /** The text that is hashed. */
  function Raw(fields: map<string, string>, order: seq<string>): string
    requires forall n | n in order :: n in fields
  {
    Join(seq(|order|, i requires 0 <= i < |order| => order[i] + "=" + fields[order[i]]))
  }

  /** The same text, field by field. */
  function Pieces(m: Material): (ps: seq<string>)
    ensures |ps| == |NAMES| && forall i | 0 <= i < |ps| :: ps[i] == NAMES[i] + "=" + Values(m)[i]
  {
    seq(|NAMES|, i requires 0 <= i < |NAMES| => NAMES[i] + "=" + Values(m)[i])
  }

  function RawText(m: Material): string {
    Join(Pieces(m))
  }

  // ----- the order of the arguments --------------------------------------------------

  lemma NamesAreSorted()
    ensures forall i, j | 0 <= i < j < |NAMES| :: Text.Before(NAMES[i], NAMES[j])
  {
    assert "date"[0] == 'd' && "email"[0] == 'e' && "name"[0] == 'n' && "phone"[0] == 'p';
    assert "service"[1..] == "ervice" && "staff_id"[1..] == "taff_id";
    assert Text.Before("ervice", "taff_id");
  }

  /** Sorting has one result. */
  lemma {:induction false} SortedIsUnique(a: seq<string>, b: seq<string>)
    requires forall i, j | 0 <= i < j < |a| :: Text.Before(a[i], a[j])
    requires forall i, j | 0 <= i < j < |b| :: Text.Before(b[i], b[j])
    requires forall n :: n in a <==> n in b
    ensures a == b
  {
    HasFirst(b);
    if a == [] {
    } else {
      assert a[0] in b;
      SameLeast(a, b);
      forall n
        ensures n in a[1..] <==> n in b[1..]
      {
        NotRepeated(a);
        NotRepeated(b);
        HeadOrTail(a, n);
        HeadOrTail(b, n);
      }
      SortedIsUnique(a[1..], b[1..]);
    }
  }

  lemma HasFirst(a: seq<string>)
    ensures a == [] || a[0] in a
  {
  }

  lemma HeadOrTail(a: seq<string>, n: string)
    requires a != []
    ensures n in a <==> n == a[0] || n in a[1..]
  {
    assert a == [a[0]] + a[1..];
  }

  lemma NotRepeated(a: seq<string>)
    requires a != [] && forall i, j | 0 <= i < j < |a| :: Text.Before(a[i], a[j])
    ensures a[0] !in a[1..]
  {
    Text.BeforeIsStrict(a[0]);
  }

  lemma SameLeast(a: seq<string>, b: seq<string>)
    requires forall i, j | 0 <= i < j < |a| :: Text.Before(a[i], a[j])
    requires forall i, j | 0 <= i < j < |b| :: Text.Before(b[i], b[j])
    requires a != [] && b != [] && a[0] in b && b[0] in a
    ensures a[0] == b[0]
  {
    if a[0] != b[0] {
      Text.BeforeIsTransitive(a[0], b[0], a[0]);
      Text.BeforeIsStrict(a[0]);
    }
  }

  lemma OrderIsNames(order: seq<string>, names: set<string>)
    requires SortedNames(order, names) && forall n :: n in names <==> n in NAMES
    ensures order == NAMES
  {
    NamesAreSorted();
    SortedIsUnique(order, NAMES);
  }

  lemma KeywordAt(m: Material, i: nat)
    requires i < |NAMES|
    ensures NAMES[i] in Keywords(m) && Keywords(m)[NAMES[i]] == Values(m)[i]
  {
  }

  /** The hashed text does not depend on the order in which the arguments are written. */
  lemma RawIsOrdered(m: Material, order: seq<string>)
    requires SortedNames(order, Keywords(m).Keys)
    ensures (forall n | n in order :: n in Keywords(m)) && Raw(Keywords(m), order) == RawText(m)
  {
    OrderIsNames(order, Keywords(m).Keys);
    forall i | 0 <= i < |NAMES|
      ensures NAMES[i] in Keywords(m) && Keywords(m)[NAMES[i]] == Values(m)[i]
    {
      KeywordAt(m, i);
    }
    assert seq(|order|, i requires 0 <= i < |order| => order[i] + "=" + Keywords(m)[order[i]]) == Pieces(m);
  }

  // ----- the text, field by field ----------------------------------------------------

  /** What stands in front of each value. */
  function Seps(): (seps: seq<string>)
    ensures |seps| == |NAMES|
  {
    seq(|NAMES|, j requires 0 <= j < |NAMES| => (if j == 0 then "" else "|") + NAMES[j] + "=")
  }

  lemma Regroup(bar: string, name: string, v: string, rest: string)
    ensures (bar + name + "=") + v + ("|" + rest) == bar + ((name + "=" + v) + "|" + rest)
  {
  }

  lemma {:induction false} JoinIsFrom(names: seq<string>, vs: seq<string>, ps: seq<string>, seps: seq<string>, j: nat)
    requires |names| == |vs| == |ps| == |seps| && j < |ps|
    requires forall i | 0 <= i < |ps| :: ps[i] == names[i] + "=" + vs[i]
    requires forall i | 0 <= i < |ps| :: seps[i] == (if i == 0 then "" else "|") + names[i] + "="
    ensures Fields.From(seps, vs, j) == (if j == 0 then "" else "|") + Join(ps[j..])
    decreases |ps| - j
  {
    if j == |ps| - 1 {
      assert Fields.From(seps, vs, j + 1) == "";
    } else {
      JoinIsFrom(names, vs, ps, seps, j + 1);
      assert ps[j..][1..] == ps[j + 1..];
      Regroup(if j == 0 then "" else "|", names[j], vs[j], Join(ps[j + 1..]));
    }
  }

  lemma RawIsFrom(m: Material)
    ensures RawText(m) == Fields.From(Seps(), Values(m), 0)
  {
    JoinIsFrom(NAMES, Values(m), Pieces(m), Seps(), 0);
    assert Pieces(m)[0..] == Pieces(m);
  }

  lemma NamesArePlain(j: nat, i: nat)
    requires j < |NAMES| && i < |NAMES[j]|
    ensures NAMES[j][i] != '|' && NAMES[j][i] != '='
  {
    if j == 0 { assert NAMES[j] == "address"; }
    else if j == 1 { assert NAMES[j] == "date"; }
    else if j == 2 { assert NAMES[j] == "email"; }
    else if j == 3 { assert NAMES[j] == "name"; }
    else if j == 4 { assert NAMES[j] == "phone"; }
    else if j == 5 { assert NAMES[j] == "service"; }
    else if j == 6 { assert NAMES[j] == "staff_id"; }
    else { assert NAMES[j] == "time"; }
  }

  lemma NamesDiffer(i: nat, j: nat)
    requires i < j < |NAMES|
    ensures NAMES[i] != NAMES[j]
  {
    NamesAreSorted();
    Text.BeforeIsStrict(NAMES[i]);
  }

  /** No name contains a bar or an equals sign, and no two names are equal. */
  lemma SepsAreSeparators()
    ensures Fields.Separators(Seps())
  {
    var seps := Seps();
    forall j, i | 0 <= j < |seps| && 0 <= i < |seps[j]|
      ensures Fields.SepShaped(seps, j, i)
    {
      SepOfName(NAMES[j], if j == 0 then "" else "|", seps[j], j, i);
    }
    forall i, j | 0 < i < j < |seps|
      ensures seps[i] != seps[j]
    {
      NamesDiffer(i, j);
      assert seps[i][1..|seps[i]| - 1] == NAMES[i] && seps[j][1..|seps[j]| - 1] == NAMES[j];
    }
  }

  lemma SepOfName(name: string, bar: string, sep: string, j: nat, i: nat)
    requires j < |NAMES| && name == NAMES[j] && bar == (if j == 0 then "" else "|") && sep == bar + name + "="
    requires i < |sep|
    ensures sep[i] == '|' <==> i == 0 && j > 0
    ensures sep[i] == '=' <==> i == |sep| - 1
  {
    if |bar| <= i < |sep| - 1 {
      NamesArePlain(j, i - |bar|);
      assert sep[i] == name[i - |bar|];
    }
  }

  // ----- the key -----------------------------------------------------------------------

  /** The key, for the hash function `hash` of texts. */
  function Key(hash: string -> string, m: Material): string {
    "mcp:create_booking:" + hash(RawText(m))
  }

  /** The hash function does not confuse the texts of the two requests. */
  predicate ToldApart(hash: string -> string, m: Material, n: Material) {
    hash(RawText(m)) == hash(RawText(n)) ==> RawText(m) == RawText(n)
  }

  /** The hash function confuses no other text with that of the request. */
  ghost predicate NoCollision(hash: string -> string, m: Material) {
    forall n :: ToldApart(hash, m, n)
  }

  lemma KeyIsText(hash: string -> string, m: Material, n: Material)
    requires ToldApart(hash, m, n)
    ensures Key(hash, n) == Key(hash, m) <==> Fields.From(Seps(), Values(n), 0) == Fields.From(Seps(), Values(m), 0)
  {
    RawIsFrom(m);
    RawIsFrom(n);
    var prefix := "mcp:create_booking:";
    assert Key(hash, m)[|prefix|..] == hash(RawText(m)) && Key(hash, n)[|prefix|..] == hash(RawText(n));
  }

  /** Some optional value is missing, or is the text None: both print alike. */
  predicate PrintsNone(m: Material) {
    || Shown(m.address) == "None" || Shown(m.email) == "None" || Shown(m.name) == "None"
    || Shown(m.phone) == "None" || Shown(m.service) == "None" || Shown(m.staffId) == "None"
  }

  /** The other value that prints as None. */
  function Flip(v: Option<string>): (w: Option<string>)
    requires Shown(v) == "None"
    ensures w != v && Shown(w) == Shown(v)
  {
    if v.None? then Some("None") else None
  }

  lemma FlippedPrintsAlike(m: Material) returns (n: Material)
    requires PrintsNone(m)
    ensures n != m && Values(n) == Values(m)
  {
    if Shown(m.address) == "None" {
      n := m.(address := Flip(m.address));
    } else if Shown(m.email) == "None" {
      n := m.(email := Flip(m.email));
    } else if Shown(m.name) == "None" {
      n := m.(name := Flip(m.name));
    } else if Shown(m.phone) == "None" {
      n := m.(phone := Flip(m.phone));
    } else if Shown(m.service) == "None" {
      n := m.(service := Flip(m.service));
    } else {
      n := m.(staffId := Flip(m.staffId));
    }
  }

  function AllGiven(vs: seq<string>): (m: Material)
    requires |vs| == |NAMES|
    ensures Values(m) == vs
  {
    Material(Some(vs[0]), vs[1], Some(vs[2]), Some(vs[3]), Some(vs[4]), Some(vs[5]), Some(vs[6]), vs[7])
  }

  lemma ValuesFix(m: Material, n: Material)
    ensures Values(m) == Values(n) ==>
              && m.date == n.date && m.time == n.time
              && Shown(m.address) == Shown(n.address) && Shown(m.email) == Shown(n.email)
              && Shown(m.name) == Shown(n.name) && Shown(m.phone) == Shown(n.phone)
              && Shown(m.service) == Shown(n.service) && Shown(m.staffId) == Shown(n.staffId)
  {
    if Values(m) == Values(n) {
      var v, w := Values(m), Values(n);
      assert v[0] == w[0] && v[1] == w[1] && v[2] == w[2] && v[3] == w[3];
      assert v[4] == w[4] && v[5] == w[5] && v[6] == w[6] && v[7] == w[7];
    }
  }

  lemma SameValues(m: Material, n: Material)
    ensures Values(m) == Values(n) ==> m == n || PrintsNone(m)
  {
    ValuesFix(m, n);
  }

  lemma OtherRequest(hash: string -> string, m: Material) returns (n: Material)
    requires NoCollision(hash, m) && (PrintsNone(m) || Fields.Ambiguous(Seps(), Values(m)))
    ensures n != m && Key(hash, n) == Key(hash, m)
  {
    if PrintsNone(m) {
      n := FlippedPrintsAlike(m);
    } else {
      SepsAreSeparators();
      var ws := Fields.OtherReading(Seps(), Values(m));
      n := AllGiven(ws);
    }
    KeyIsText(hash, m, n);
  }

  /** Some different request has the key of this one exactly when an optional value of it is
      missing or is the text None, or a value of it contains its own separator or that of the
      next field. */
  lemma KeyIsShared(hash: string -> string, m: Material)
    requires NoCollision(hash, m)
    ensures (exists n :: n != m && Key(hash, n) == Key(hash, m))
            <==> PrintsNone(m) || Fields.Ambiguous(Seps(), Values(m))
  {
    if PrintsNone(m) || Fields.Ambiguous(Seps(), Values(m)) {
      var n := OtherRequest(hash, m);
    }
    forall n | n != m && Key(hash, n) == Key(hash, m)
      ensures PrintsNone(m) || Fields.Ambiguous(Seps(), Values(m))
    {
      KeyIsFaithfulValues(hash, m, n);
      SameValues(m, n);
    }
  }

  lemma KeyIsFaithfulValues(hash: string -> string, m: Material, n: Material)
    requires ToldApart(hash, m, n)
    ensures Fields.Ambiguous(Seps(), Values(m)) || (Key(hash, m) == Key(hash, n) <==> Values(m) == Values(n))
  {
    SepsAreSeparators();
    KeyIsText(hash, m, n);
    Fields.TextIsShared(Seps(), Values(m));
  }

  /** No optional value is the text None. */
  predicate NoTextNone(m: Material) {
    && m.address != Some("None") && m.email != Some("None") && m.name != Some("None")
    && m.phone != Some("None") && m.service != Some("None") && m.staffId != Some("None")
  }

  /** A request none of whose values can be misread shares its key exactly with the requests
      that print the same values; if None is not used as a text, that is with itself only. */
  lemma KeyIsFaithful(hash: string -> string, m: Material, n: Material)
    requires ToldApart(hash, m, n) && !Fields.Ambiguous(Seps(), Values(m))
    ensures Key(hash, m) == Key(hash, n) <==> Values(m) == Values(n)
    ensures NoTextNone(m) && NoTextNone(n) ==> (Key(hash, m) == Key(hash, n) <==> m == n)
  {
    KeyIsFaithfulValues(hash, m, n);
    NoTextNoneFixes(m, n);
  }

  lemma NoTextNoneFixes(m: Material, n: Material)
    ensures NoTextNone(m) && NoTextNone(n) && Values(m) == Values(n) ==> m == n
  {
    ValuesFix(m, n);
  }

  /** A missing staff member and one called None share a key, whatever the other fields. */
  lemma NoneIsConfused(hash: string -> string, m: Material)
    ensures Key(hash, m.(staffId := None)) == Key(hash, m.(staffId := Some("None")))
  {
    assert Pieces(m.(staffId := None)) == Pieces(m.(staffId := Some("None")));
  }

  /** A separator in a value can move the boundary of two fields: different people, one key. */
  lemma BarsAreConfused(hash: string -> string, m: Material, u: string, v: string, w: string)
    ensures Key(hash, m.(email := Some(u), name := Some(v + "|name=" + w)))
            == Key(hash, m.(email := Some(u + "|name=" + v), name := Some(w)))
  {
    var a := m.(email := Some(u), name := Some(v + "|name=" + w));
    var b := m.(email := Some(u + "|name=" + v), name := Some(w));
    assert Seps()[3] == "|name=";
    Fields.Reparse(Seps(), Values(a), 2, u + "|name=" + v, w);
    assert Values(b) == Values(a)[2 := u + "|name=" + v][3 := w];
    RawIsFrom(a);
    RawIsFrom(b);
  }

  /** The request that create_booking works on. */
  function RequestOf(hash: string -> string, m: Material, staffName: Option<string>): Request {
    Request(m.name, m.email, m.phone, m.address, m.service, m.staffId, staffName,
            Calendar.StartOf(m.date, m.time), Key(hash, m))
  }

  /** The request says what its fields say. */
  lemma RequestSays(hash: string -> string, m: Material, staffName: Option<string>)
    ensures var req := RequestOf(hash, m, staffName);
            && req.name == m.name && req.email == m.email && req.phone == m.phone && req.address == m.address
            && req.service == m.service && req.staffId == m.staffId && req.staffName == staffName
            && req.start == Calendar.StartOf(m.date, m.time)
  {
  }

  /** Two requests have one key exactly when all their fields agree, the date, the time and the
      staff member among them; the name of the staff member does not count. */
  lemma RequestKeys(hash: string -> string, m: Material, n: Material, a: Option<string>, b: Option<string>)
    requires ToldApart(hash, m, n) && !Fields.Ambiguous(Seps(), Values(m)) && NoTextNone(m) && NoTextNone(n)
    ensures RequestOf(hash, m, a).key == RequestOf(hash, n, b).key <==> m == n
  {
    KeyIsFaithful(hash, m, n);
  }

  /** After a new booking, the same fields give the same booking again, as a repeat, and change
      nothing; other fields with a free slot, and not booked before, give a booking of their
      own, with the rows drawn for it and at its own start. */
  lemma BookTwice(hash: string -> string, t: Tables, m: Material, n: Material, a: Option<string>, b: Option<string>,
                  ids: Ids, ids': Ids)
    requires ToldApart(hash, m, n) && !Fields.Ambiguous(Seps(), Values(m)) && NoTextNone(m) && NoTextNone(n)
    requires CreateBooking(t, RequestOf(hash, m, a), ids).1.Booked?
    requires !CreateBooking(t, RequestOf(hash, m, a), ids).1.idempotent
    ensures var (t', first) := CreateBooking(t, RequestOf(hash, m, a), ids);
            var again := CreateBooking(t', RequestOf(hash, n, b), ids');
            var start := Calendar.StartOf(n.date, n.time);
            && (m == n ==> again == (t', Booked(first.booking, true)))
            && (m != n && RequestOf(hash, n, b).key !in t.ledger && start.Some?
                && (n.staffId.Some? ==> n.staffId.value in t.staff)
                && (forall x | x in t'.appointments ::
                      || n.staffId.None? || t'.appointments[x].staffId != n.staffId
                      || t'.appointments[x].start != start.value)
                ==>
                  && again.1.Booked? && !again.1.idempotent
                  && again.1.booking.appointmentId == ids'.appointment && again.1.booking.jobId == ids'.job
                  && again.1.booking.staffId == n.staffId && again.1.booking.start == start.value)
  {
    RequestKeys(hash, m, n, a, b);
    RequestSays(hash, n, b);
  }
}
