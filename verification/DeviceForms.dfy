/**
 * The texts that are device names: rows of components, and a type with an id. Nothing here is stated in terms of the
 * functions of the parser.
 */
module DeviceForms {
  import opened Basics
  import opened Numbers
  import opened DeviceNames

  /** The number of a component, as it is written; no digits stand for "*". */
  type Numeral = Option<string>

  datatype Part =
    | Job(name: Option<string>)
    | Replica(number: Numeral)
    | Task(number: Numeral)
    | Device(kind: Option<string>, id: Option<Numeral>)
    | Legacy(prefix: string, number: Numeral)

  predicate IsNumeral(n: Numeral) {
    n.Some? ==> n.value != "" && AreDigits(n.value) && Natural(n.value) < TWO_64
  }

  predicate IsName(name: Option<string>) {
    name.Some? ==> IsIdentifier(name.value)
  }

  predicate IsPart(part: Part) {
    match part
    case Job(name) => IsName(name)
    case Replica(n) => IsNumeral(n)
    case Task(n) => IsNumeral(n)
    case Device(kind, id) => IsName(kind) && (id.Some? ==> IsNumeral(id.value))
    case Legacy(prefix, n) => prefix in ["/cpu:", "/CPU:", "/gpu:", "/GPU:"] && IsNumeral(n)
  }

  predicate AreParts(parts: seq<Part>) {
    forall i | 0 <= i < |parts| :: IsPart(parts[i])
  }

  function OrStar(s: Option<string>): string {
    if s.Some? then s.value else "*"
  }

  function PartText(part: Part): string {
    match part
    case Job(name) => "/job:" + OrStar(name)
    case Replica(n) => "/replica:" + OrStar(n)
    case Task(n) => "/task:" + OrStar(n)
    case Device(kind, id) => "/device:" + (OrStar(kind) + if id.Some? then ":" + OrStar(id.value) else "")
    case Legacy(prefix, n) => prefix + OrStar(n)
  }

  function RowText(parts: seq<Part>): string {
    if parts == [] then "" else PartText(parts[0]) + RowText(parts[1..])
  }

  /** The number that an int holds after the numeral has been assigned to it. */
  function Value(n: Numeral): Option<int>
    requires IsNumeral(n)
  {
    if n.Some? then Some(ToInt32(Natural(n.value))) else None
  }

  function LegacyKind(prefix: string): string {
    if prefix == "/cpu:" || prefix == "/CPU:" then "CPU" else "GPU"
  }

  /** A component replaces what an earlier one of its sort said. */
  function Effect(part: Part, p: Name): Name
    requires IsPart(part)
  {
    match part
    case Job(name) => p.(job := name)
    case Replica(n) => p.(replica := Value(n))
    case Task(n) => p.(task := Value(n))
    case Device(kind, id) => p.(kind := kind, id := if id.Some? then Value(id.value) else None)
    case Legacy(prefix, n) => p.(kind := Some(LegacyKind(prefix)), id := Value(n))
  }

  function Effects(parts: seq<Part>, p: Name): Name
    requires AreParts(parts)
  {
    if parts == [] then p else Effects(parts[1..], Effect(parts[0], p))
  }

  // ---------------------------------------------------------------- one component

  lemma NumeralBack(n: Numeral, rest: string)
    requires IsNumeral(n) && IsTail(rest)
    ensures TakeNumberOrStar(OrStar(n) + rest) == Taken(Value(n), rest)
  {
    var s := OrStar(n) + rest;
    if n.Some? {
      var d := n.value;
      assert s[..|d|] == d && s[|d|..] == rest && s[0] == d[0];
      LeadingDigitsAtLeast(s, |d|);
      ScanDone(s, |d|, rest);
    } else {
      assert s[0] == '*' && s[1..] == rest;
    }
  }

  lemma NameBack(name: Option<string>, rest: string, terminators: string)
    requires IsName(name) && (terminators == "/" || terminators == "/:")
    requires rest != "" ==> rest[0] in terminators
    ensures TakeIdentifierOrStar(OrStar(name) + rest, terminators) == Taken(name, rest)
  {
    var s := OrStar(name) + rest;
    if name.Some? {
      TakeIdentifierBack(name.value, rest, terminators);
    } else {
      assert s[0] == '*' && s[1..] == rest;
    }
  }

  lemma DropFront(a: string, b: string)
    ensures a <= a + b && (a + b)[|a|..] == b
  {}

  lemma JobPart(name: Option<string>, rest: string, p: Name)
    requires IsName(name) && IsTail(rest)
    ensures ParseComponent("/job:" + (OrStar(name) + rest), p) == Next(p.(job := name), rest)
  {
    var t := OrStar(name) + rest;
    DropFront("/job:", t);
    ComponentIs("/job:" + t, p);
    NameBack(name, rest, "/");
    hide ParseComponent, TakeIdentifierOrStar, OrStar;
  }

  lemma ReplicaPart(n: Numeral, rest: string, p: Name)
    requires IsNumeral(n) && IsTail(rest)
    ensures ParseComponent("/replica:" + (OrStar(n) + rest), p) == Next(p.(replica := Value(n)), rest)
  {
    var t := OrStar(n) + rest;
    DropFront("/replica:", t);
    ComponentIs("/replica:" + t, p);
    NumeralBack(n, rest);
    hide ParseComponent, TakeNumberOrStar, OrStar, Value;
  }

  lemma TaskPart(n: Numeral, rest: string, p: Name)
    requires IsNumeral(n) && IsTail(rest)
    ensures ParseComponent("/task:" + (OrStar(n) + rest), p) == Next(p.(task := Value(n)), rest)
  {
    var t := OrStar(n) + rest;
    DropFront("/task:", t);
    ComponentIs("/task:" + t, p);
    NumeralBack(n, rest);
    hide ParseComponent, TakeNumberOrStar, OrStar, Value;
  }

  lemma LegacyPart(prefix: string, n: Numeral, rest: string, p: Name)
    requires IsPart(Legacy(prefix, n)) && IsTail(rest)
    ensures ParseComponent(prefix + (OrStar(n) + rest), p)
         == Next(p.(kind := Some(LegacyKind(prefix)), id := Value(n)), rest)
  {
    ShortForm(prefix, LegacyKind(prefix), OrStar(n) + rest, p);
    NumeralBack(n, rest);
    hide ParseComponent, TakeNumberOrStar, OrStar, Value, LegacyKind;
  }

  lemma PlainDevicePart(kind: Option<string>, rest: string, p: Name)
    requires IsName(kind) && IsTail(rest)
    ensures ParseComponent("/device:" + (OrStar(kind) + rest), p) == Next(p.(kind := kind, id := None), rest)
  {
    var t := OrStar(kind) + rest;
    DropFront("/device:", t);
    ComponentIs("/device:" + t, p);
    NameBack(kind, rest, "/:");
    hide ParseComponent, TakeIdentifierOrStar, OrStar;
  }

  lemma DevicePart(kind: Option<string>, n: Numeral, rest: string, p: Name)
    requires IsName(kind) && IsNumeral(n) && IsTail(rest)
    ensures ParseComponent("/device:" + (OrStar(kind) + (":" + (OrStar(n) + rest))), p)
         == Next(p.(kind := kind, id := Value(n)), rest)
  {
    var u := OrStar(n) + rest;
    var t := OrStar(kind) + (":" + u);
    DropFront("/device:", t);
    DropFront(":", u);
    ComponentIs("/device:" + t, p);
    NameBack(kind, ":" + u, "/:");
    NumeralBack(n, rest);
    hide ParseComponent, TakeNumberOrStar, TakeIdentifierOrStar, OrStar, Value;
  }

  lemma Regrouped(a: string, b: string, c: string, d: string, rest: string)
    ensures a + b + rest == a + (b + rest)
    ensures a + (b + (c + d)) + rest == a + (b + (c + (d + rest)))
    ensures a + (b + "") + rest == a + (b + rest)
  {
    assert b + "" == b;
  }

  lemma PartBack(part: Part, rest: string, p: Name)
    requires IsPart(part) && IsTail(rest)
    ensures PartText(part) != "" && ParseComponent(PartText(part) + rest, p) == Next(Effect(part, p), rest)
  {
    hide ParseComponent, OrStar, Value, IsName, IsNumeral;
    match part
    case Job(name) =>
      Regrouped("/job:", OrStar(name), "", "", rest);
      JobPart(name, rest, p);
    case Replica(n) =>
      Regrouped("/replica:", OrStar(n), "", "", rest);
      ReplicaPart(n, rest, p);
    case Task(n) =>
      Regrouped("/task:", OrStar(n), "", "", rest);
      TaskPart(n, rest, p);
    case Device(kind, id) =>
      if id.Some? {
        Regrouped("/device:", OrStar(kind), ":", OrStar(id.value), rest);
        DevicePart(kind, id.value, rest, p);
      } else {
        Regrouped("/device:", OrStar(kind), "", "", rest);
        PlainDevicePart(kind, rest, p);
      }
    case Legacy(prefix, n) =>
      Regrouped(prefix, OrStar(n), "", "", rest);
      LegacyPart(prefix, n, rest, p);
  }

  // ---------------------------------------------------------------- rows of components

  lemma RowIsTail(parts: seq<Part>, rest: string)
    requires AreParts(parts) && IsTail(rest)
    ensures IsTail(RowText(parts) + rest)
  {
    if parts == [] {
      assert RowText(parts) + rest == rest;
    } else {
      assert IsPart(parts[0]) && PartText(parts[0])[0] == '/';
    }
  }

  /** A row of components is read one by one, whatever follows. */
  lemma {:induction false} RowBack(parts: seq<Part>, rest: string, p: Name)
    requires AreParts(parts) && IsTail(rest)
    ensures ParseComponents(RowText(parts) + rest, p) == ParseComponents(rest, Effects(parts, p))
  {
    if parts == [] {
      assert RowText(parts) + rest == rest;
    } else {
      var next := RowText(parts[1..]) + rest;
      assert RowText(parts) + rest == PartText(parts[0]) + next;
      assert IsPart(parts[0]);
      RowIsTail(parts[1..], rest);
      PartBack(parts[0], next, p);
      RowBack(parts[1..], rest, Effect(parts[0], p));
      hide ParseComponent, PartText, Effect, IsPart;
      assert PartText(parts[0]) + next != "";
    }
  }

  lemma PartsAreLong(parts: seq<Part>, rest: string)
    requires AreParts(parts) && parts != []
    ensures |RowText(parts) + rest| > 4
  {
    assert IsPart(parts[0]);
    assert |PartText(parts[0])| > 4;
  }

  // ---------------------------------------------------------------- nothing else is a name

  lemma NumeralOf(s: string) returns (n: Numeral)
    requires TakeNumberOrStar(s).Taken?
    ensures IsNumeral(n) && s == OrStar(n) + TakeNumberOrStar(s).rest && TakeNumberOrStar(s).value == Value(n)
  {
    if "*" <= s {
      n := None;
    } else {
      n := Some(s[..LeadingDigits(s)]);
    }
  }

  lemma NameOf(s: string, terminators: string) returns (name: Option<string>)
    requires TakeIdentifierOrStar(s, terminators).Taken?
    ensures var t := TakeIdentifierOrStar(s, terminators); t.value == name && IsName(name) && s == OrStar(name) + t.rest
  {
    name := TakeIdentifierOrStar(s, terminators).value;
  }

  lemma SplitFront(a: string, s: string)
    requires a <= s
    ensures s == a + s[|a|..]
  {}

  lemma DeviceOf(s: string, p: Name) returns (part: Part)
    requires "/device:" <= s && ParseDevice(s, p).Next?
    ensures IsPart(part) && s == PartText(part) + ParseDevice(s, p).rest
  {
    SplitFront("/device:", s);
    var kind := NameOf(s[8..], "/:");
    var rest := TakeIdentifierOrStar(s[8..], "/:").rest;
    if ":" <= rest {
      SplitFront(":", rest);
      var n := NumeralOf(rest[1..]);
      part := Device(kind, Some(n));
      Regrouped("/device:", OrStar(kind), ":", OrStar(n), ParseDevice(s, p).rest);
    } else {
      part := Device(kind, None);
      Regrouped("/device:", OrStar(kind), "", "", rest);
    }
  }

  lemma LegacyPrefix(s: string) returns (prefix: string)
    requires "/cpu:" <= s || "/CPU:" <= s || "/gpu:" <= s || "/GPU:" <= s
    ensures |prefix| == 5 && prefix in ["/cpu:", "/CPU:", "/gpu:", "/GPU:"] && prefix <= s
  {
    prefix := if "/cpu:" <= s then "/cpu:" else if "/CPU:" <= s then "/CPU:" else if "/gpu:" <= s then "/gpu:" else "/GPU:";
  }

  /** What was taken for a component is one. */
  lemma PartOf(s: string, p: Name) returns (part: Part)
    requires ParseComponent(s, p).Next?
    ensures IsPart(part) && s == PartText(part) + ParseComponent(s, p).rest
  {
    hide ParseDevice, TakeNumberOrStar, TakeIdentifierOrStar, OrStar, IsNumeral, IsName, Value;
    var rest := ParseComponent(s, p).rest;
    if "/job:" <= s {
      SplitFront("/job:", s);
      var name := NameOf(s[5..], "/");
      part := Job(name);
      Regrouped("/job:", OrStar(name), "", "", rest);
    } else if "/replica:" <= s {
      SplitFront("/replica:", s);
      var n := NumeralOf(s[9..]);
      part := Replica(n);
      Regrouped("/replica:", OrStar(n), "", "", rest);
    } else if "/task:" <= s {
      SplitFront("/task:", s);
      var n := NumeralOf(s[6..]);
      part := Task(n);
      Regrouped("/task:", OrStar(n), "", "", rest);
    } else if "/device:" <= s {
      part := DeviceOf(s, p);
    } else {
      var prefix := LegacyPrefix(s);
      SplitFront(prefix, s);
      var n := NumeralOf(s[5..]);
      part := Legacy(prefix, n);
      Regrouped(prefix, OrStar(n), "", "", rest);
    }
  }

  /** A text that is parsed is a row of components. */
  lemma {:induction false} RowOf(s: string, p: Name) returns (parts: seq<Part>)
    requires ParseComponents(s, p).Some?
    ensures AreParts(parts) && s == RowText(parts)
    decreases |s|
  {
    hide ParseComponent, IsPart, PartText;
    if s == "" {
      parts := [];
    } else {
      var part := PartOf(s, p);
      var r := ParseComponent(s, p);
      var others := RowOf(r.rest, r.name);
      parts := [part] + others;
      assert parts[1..] == others;
    }
  }

  /** ParseFullName in full: the names are "/" and the rows of components, and a row means what its components say
      one after the other. */
  ghost predicate Denotes(s: string, p: Name) {
    || (s == "/" && p == NOTHING)
    || exists parts :: AreParts(parts) && s == RowText(parts) && p == Effects(parts, NOTHING)
  }

  lemma RowIsNotSlash(parts: seq<Part>)
    requires AreParts(parts)
    ensures RowText(parts) != "/"
  {
    if parts != [] {
      PartsAreLong(parts, "");
      assert RowText(parts) + "" == RowText(parts);
    }
  }

  lemma RowParsed(parts: seq<Part>)
    requires AreParts(parts)
    ensures ParseFull(RowText(parts)) == Some(Effects(parts, NOTHING))
  {
    RowIsNotSlash(parts);
    RowBack(parts, "", NOTHING);
    assert RowText(parts) + "" == RowText(parts);
  }

  lemma FullNamesAreRows(s: string, p: Name)
    ensures ParseFull(s) == Some(p) <==> Denotes(s, p)
  {
    hide ParseComponents, AreParts, Effects, RowText;
    if s != "/" && ParseFull(s).Some? {
      var parts := RowOf(s, NOTHING);
      RowParsed(parts);
    }
    if s != "/" && Denotes(s, p) {
      var parts :| AreParts(parts) && s == RowText(parts) && p == Effects(parts, NOTHING);
      RowParsed(parts);
    }
    if parts :| s == "/" && AreParts(parts) && s == RowText(parts) {
      RowIsNotSlash(parts);
      assert false;
    }
  }

  /** Local names: a type, a colon, and digits. */
  ghost predicate DenotesLocal(s: string, p: Name) {
    exists kind, digits :: IsLocal(kind, digits) && s == kind + ":" + digits
      && p == Name(None, None, None, Some(kind), Some(ToInt32(Natural(digits))))
  }

  lemma LocalOf(s: string) returns (kind: string, digits: string)
    requires ParseLocal(s).Some?
    ensures s == kind + ":" + digits && IsLocal(kind, digits)
  {
    var t := TakeIdentifier(s, "/:");
    kind, digits := t.value, t.rest[1..];
    SplitFront(":", t.rest);
    var k := LeadingDigits(digits);
    assert digits[..k] == digits && digits[k..] == "";
    assert s == kind + (":" + digits);
  }

  lemma LocalNamesAre(s: string, p: Name)
    ensures ParseLocal(s) == Some(p) <==> DenotesLocal(s, p)
  {
    hide ParseLocal;
    if ParseLocal(s).Some? {
      var kind, digits := LocalOf(s);
      LocalParsedBack(kind, digits);
    }
    if DenotesLocal(s, p) {
      var kind, digits :| s == kind + ":" + digits && IsLocal(kind, digits)
        && p == Name(None, None, None, Some(kind), Some(ToInt32(Natural(digits))));
      LocalParsedBack(kind, digits);
    }
  }

  predicate IsLocal(kind: string, digits: string) {
    IsIdentifier(kind) && digits != "" && AreDigits(digits) && Natural(digits) < TWO_64
  }

  lemma LocalParsedBack(kind: string, digits: string)
    requires IsLocal(kind, digits)
    ensures ParseLocal(kind + ":" + digits) == Some(Name(None, None, None, Some(kind), Some(ToInt32(Natural(digits)))))
  {
    var s := kind + ":" + digits;
    assert s == kind + (":" + digits) && s[0] == kind[0];
    DropFront(":", digits);
    TakeIdentifierBack(kind, ":" + digits, "/:");
    assert TakeIdentifier(s, "/:") == Taken(kind, ":" + digits);
    hide TakeIdentifier, TakeIdentifierOrStar, IsIdentifier;
    DigitsTaken(digits, Natural(digits));
  }

  // ---------------------------------------------------------------- what a row means

  /** Components of one sort replace each other. */
  datatype Sort = OfJob | OfReplica | OfTask | OfDevice

  function SortOf(part: Part): Sort {
    match part
    case Job(_) => OfJob
    case Replica(_) => OfReplica
    case Task(_) => OfTask
    case Device(_, _) => OfDevice
    case Legacy(_, _) => OfDevice
  }

  /** The two names say the same of this sort. */
  predicate SameIn(sort: Sort, a: Name, b: Name) {
    match sort
    case OfJob => a.job == b.job
    case OfReplica => a.replica == b.replica
    case OfTask => a.task == b.task
    case OfDevice => a.kind == b.kind && a.id == b.id
  }

  lemma {:induction false} EffectsConcat(a: seq<Part>, b: seq<Part>, p: Name)
    requires AreParts(a) && AreParts(b)
    ensures AreParts(a + b) && Effects(a + b, p) == Effects(b, Effects(a, p)) && RowText(a + b) == RowText(a) + RowText(b)
  {
    if a == [] {
      assert a + b == b;
    } else {
      assert (a + b)[0] == a[0] && (a + b)[1..] == a[1..] + b;
      assert IsPart(a[0]);
      EffectsConcat(a[1..], b, Effect(a[0], p));
    }
  }

  /** Without a component of a sort, nothing is said of it. */
  lemma {:induction false} NoneOfSort(parts: seq<Part>, sort: Sort, p: Name)
    requires AreParts(parts) && forall i | 0 <= i < |parts| :: SortOf(parts[i]) != sort
    ensures SameIn(sort, Effects(parts, p), p)
  {
    if parts != [] {
      assert IsPart(parts[0]) && SortOf(parts[0]) != sort;
      NoneOfSort(parts[1..], sort, Effect(parts[0], p));
    }
  }

  /** Of several components of a sort the last one decides. */
  lemma LastOfSort(front: seq<Part>, part: Part, back: seq<Part>)
    requires AreParts(front) && IsPart(part) && AreParts(back)
    requires forall i | 0 <= i < |back| :: SortOf(back[i]) != SortOf(part)
    ensures var r := ParseFull(RowText(front) + PartText(part) + RowText(back));
      r.Some? && SameIn(SortOf(part), r.value, Effect(part, NOTHING))
  {
    hide ParseFull;
    Rows(front, [part], back);
    NoneOfSort(back, SortOf(part), Effects([part], Effects(front, NOTHING)));
    EffectsOne(part, Effects(front, NOTHING));
  }

  lemma EffectsOne(part: Part, p: Name)
    requires IsPart(part)
    ensures Effects([part], p) == Effect(part, p) && RowText([part]) == PartText(part)
  {
    assert [part][1..] == [];
    assert PartText(part) + "" == PartText(part);
  }

  /** Three rows one after the other. */
  lemma Rows(front: seq<Part>, middle: seq<Part>, back: seq<Part>)
    requires AreParts(front) && AreParts(middle) && AreParts(back)
    ensures ParseFull(RowText(front) + RowText(middle) + RowText(back))
         == Some(Effects(back, Effects(middle, Effects(front, NOTHING))))
  {
    EffectsConcat(front, middle, NOTHING);
    EffectsConcat(front + middle, back, NOTHING);
    RowParsed(front + middle + back);
    hide ParseFull;
  }

  /** Components of different sorts can be exchanged. */
  lemma OrderDoesNotMatter(front: seq<Part>, a: Part, b: Part, back: seq<Part>)
    requires AreParts(front) && IsPart(a) && IsPart(b) && AreParts(back) && SortOf(a) != SortOf(b)
    ensures ParseFull(RowText(front) + (PartText(a) + PartText(b)) + RowText(back))
         == ParseFull(RowText(front) + (PartText(b) + PartText(a)) + RowText(back))
  {
    var p := Effects(front, NOTHING);
    TwoParts(a, b, p);
    TwoParts(b, a, p);
    Rows(front, [a, b], back);
    Rows(front, [b, a], back);
    Exchange(a, b, p);
    hide ParseFull, Effect, Effects, PartText, RowText;
  }

  lemma Exchange(a: Part, b: Part, p: Name)
    requires IsPart(a) && IsPart(b) && SortOf(a) != SortOf(b)
    ensures Effect(b, Effect(a, p)) == Effect(a, Effect(b, p))
  {
    hide Value, LegacyKind;
  }

  lemma TwoParts(a: Part, b: Part, p: Name)
    requires IsPart(a) && IsPart(b)
    ensures Effects([a, b], p) == Effect(b, Effect(a, p)) && RowText([a, b]) == PartText(a) + PartText(b)
  {
    assert [a, b] == [a] + [b];
    EffectsConcat([a], [b], p);
    EffectsOne(a, p);
    EffectsOne(b, Effect(a, p));
  }

  /** "*" says nothing, and takes back what was said before. */
  lemma StarsTakeBack(front: seq<Part>)
    requires AreParts(front)
    ensures var s, p := RowText(front), Effects(front, NOTHING);
      && ParseFull(s) == Some(p)
      && ParseFull(s + "/job:*") == Some(p.(job := None))
      && ParseFull(s + "/replica:*") == Some(p.(replica := None))
      && ParseFull(s + "/task:*") == Some(p.(task := None))
      && ParseFull(s + "/device:*") == Some(p.(kind := None, id := None))
      && ParseFull(s + "/device:*:*") == Some(p.(kind := None, id := None))
      && ParseFull(s + "/cpu:*") == ParseFull(s + "/CPU:*") == Some(p.(kind := Some("CPU"), id := None))
      && ParseFull(s + "/gpu:*") == ParseFull(s + "/GPU:*") == Some(p.(kind := Some("GPU"), id := None))
  {
    hide ParseFull, Effects, RowText;
    RowParsed(front);
    OneMore(front, Job(None), "/job:*");
    OneMore(front, Replica(None), "/replica:*");
    OneMore(front, Task(None), "/task:*");
    OneMore(front, Device(None, None), "/device:*");
    OneMore(front, Device(None, Some(None)), "/device:*:*");
    OneMore(front, Legacy("/cpu:", None), "/cpu:*");
    OneMore(front, Legacy("/CPU:", None), "/CPU:*");
    OneMore(front, Legacy("/gpu:", None), "/gpu:*");
    OneMore(front, Legacy("/GPU:", None), "/GPU:*");
  }

  lemma OneMore(front: seq<Part>, part: Part, s: string)
    requires AreParts(front) && IsPart(part) && s == PartText(part)
    ensures ParseFull(RowText(front) + s) == Some(Effect(part, Effects(front, NOTHING)))
  {
    EffectsConcat(front, [part], NOTHING);
    EffectsOne(part, Effects(front, NOTHING));
    RowParsed(front + [part]);
    hide ParseFull;
  }

  lemma NothingSaid()
    ensures ParseFull("/") == Some(NOTHING) == ParseFull("")
  {}

  // ---------------------------------------------------------------- the legacy forms

  /** The legacy forms stand for "/device:CPU:" and "/device:GPU:" whatever follows them. */
  lemma LegacyForms(front: seq<Part>, rest: string)
    requires AreParts(front)
    ensures var s := RowText(front);
      && ParseFull(s + "/cpu:" + rest) == ParseFull(s + "/CPU:" + rest) == ParseFull(s + "/device:CPU:" + rest)
      && ParseFull(s + "/gpu:" + rest) == ParseFull(s + "/GPU:" + rest) == ParseFull(s + "/device:GPU:" + rest)
  {
    hide ParseFull;
    LegacyForm(front, "/cpu:", "CPU", "/device:CPU:", rest);
    LegacyForm(front, "/CPU:", "CPU", "/device:CPU:", rest);
    LegacyForm(front, "/gpu:", "GPU", "/device:GPU:", rest);
    LegacyForm(front, "/GPU:", "GPU", "/device:GPU:", rest);
  }

  lemma LegacyForm(front: seq<Part>, prefix: string, kind: string, long: string, rest: string)
    requires AreParts(front) && (kind == "CPU" || kind == "GPU") && long == "/device:" + kind + ":"
    requires if kind == "CPU" then prefix == "/cpu:" || prefix == "/CPU:" else prefix == "/gpu:" || prefix == "/GPU:"
    ensures ParseFull(RowText(front) + prefix + rest) == ParseFull(RowText(front) + long + rest)
  {
    var p := Effects(front, NOTHING);
    assert RowText(front) + prefix + rest == RowText(front) + (prefix + rest);
    assert RowText(front) + long + rest == RowText(front) + (long + rest);
    RowBack(front, prefix + rest, NOTHING);
    RowBack(front, long + rest, NOTHING);
    SameComponent(prefix, kind, long, rest, p);
    assert |RowText(front) + (prefix + rest)| > 1 && |RowText(front) + (long + rest)| > 1;
    hide ParseComponent;
    assert prefix + rest != "" && long + rest != "";
  }

  lemma SameComponent(prefix: string, kind: string, long: string, rest: string, p: Name)
    requires (kind == "CPU" || kind == "GPU") && long == "/device:" + kind + ":"
    requires if kind == "CPU" then prefix == "/cpu:" || prefix == "/CPU:" else prefix == "/gpu:" || prefix == "/GPU:"
    ensures ParseComponent(prefix + rest, p) == ParseComponent(long + rest, p)
  {
    assert IsIdentifier(kind);
    hide *;
    LongText("/device:", kind, ":", rest);
    ShortForm(prefix, kind, rest, p);
    LongForm(kind, rest, p);
  }

  lemma LongText(a: string, b: string, c: string, rest: string)
    ensures a + b + c + rest == a + (b + (c + rest))
  {}

  /** What comes of an id, of whatever form. */
  function WithId(rest: string, kind: string, p: Name): Outcome {
    var n := TakeNumberOrStar(rest);
    if n.Taken? then Next(p.(kind := Some(kind), id := n.value), n.rest) else BadComponent
  }

  lemma ShortForm(prefix: string, kind: string, rest: string, p: Name)
    requires kind == "CPU" || kind == "GPU"
    requires if kind == "CPU" then prefix == "/cpu:" || prefix == "/CPU:" else prefix == "/gpu:" || prefix == "/GPU:"
    ensures ParseComponent(prefix + rest, p) == WithId(rest, kind, p)
  {
    var s := prefix + rest;
    DropFront(prefix, rest);
    ComponentIs(s, p);
    hide ParseComponent, TakeNumberOrStar;
    assert IsIdentifier(kind);
  }

  lemma LongForm(kind: string, rest: string, p: Name)
    requires IsIdentifier(kind)
    ensures ParseComponent("/device:" + (kind + (":" + rest)), p) == WithId(rest, kind, p)
  {
    var u := ":" + rest;
    var s := "/device:" + (kind + u);
    DropFront("/device:", kind + u);
    DropFront(":", rest);
    ComponentIs(s, p);
    NameBack(Some(kind), u, "/:");
    hide ParseComponent, TakeNumberOrStar, TakeIdentifierOrStar;
  }

  /** The type and the id that a legacy form with a printed number gives. */
  lemma LegacyIds(front: seq<Part>, n: nat)
    requires AreParts(front) && n < TWO_31
    ensures var s, p := RowText(front), Effects(front, NOTHING);
      && ParseFull(s + "/cpu:" + Decimal(n)) == Some(p.(kind := Some("CPU"), id := Some(n)))
      && ParseFull(s + "/CPU:" + Decimal(n)) == Some(p.(kind := Some("CPU"), id := Some(n)))
      && ParseFull(s + "/gpu:" + Decimal(n)) == Some(p.(kind := Some("GPU"), id := Some(n)))
      && ParseFull(s + "/GPU:" + Decimal(n)) == Some(p.(kind := Some("GPU"), id := Some(n)))
  {
    hide ParseFull, Effects, RowText, Decimal, Natural;
    NaturalDecimal(n);
    LegacyId(front, "/cpu:", Decimal(n), n);
    LegacyId(front, "/CPU:", Decimal(n), n);
    LegacyId(front, "/gpu:", Decimal(n), n);
    LegacyId(front, "/GPU:", Decimal(n), n);
  }

  lemma LegacyId(front: seq<Part>, prefix: string, digits: string, n: nat)
    requires AreParts(front) && IsPart(Legacy(prefix, Some(digits))) && Natural(digits) == n < TWO_31
    ensures ParseFull(RowText(front) + prefix + digits)
         == Some(Effects(front, NOTHING).(kind := Some(LegacyKind(prefix)), id := Some(n)))
  {
    SmallValue(digits, n);
    hide ParseFull, LegacyKind, Natural, Value, Effects;
    assert RowText(front) + prefix + digits == RowText(front) + (prefix + digits);
    hide RowText;
    OneMore(front, Legacy(prefix, Some(digits)), prefix + digits);
  }

  lemma SmallValue(digits: string, n: nat)
    requires IsNumeral(Some(digits)) && Natural(digits) == n < TWO_31
    ensures Value(Some(digits)) == Some(n)
  {
    hide Natural;
  }

  // ---------------------------------------------------------------- printed names

  /** The components that are set are printed in a fixed order, and a type always with an id, which is "*" when it
      is not set. */
  lemma PrintedForm(p: Name)
    ensures PrintedName(p) ==
      (if p.job.Some? then "/job:" + p.job.value else "")
      + (if p.replica.Some? then "/replica:" + Printed(p.replica.value) else "")
      + (if p.task.Some? then "/task:" + Printed(p.task.value) else "")
      + (if p.kind.Some? then "/device:" + p.kind.value + ":" + (if p.id.Some? then Printed(p.id.value) else "*") else "")
  {
    hide Printed;
    Flattened(JobText(p), ReplicaText(p), TaskText(p), DeviceText(p));
  }

  /** A base name has to say everything; what the name does not say is taken from it. */
  lemma CanonicalForm(fullname: string, basename: string)
    ensures var local, full, base := ParseLocal(fullname), ParseFull(fullname), ParseFull(basename);
      var c := Canonical(fullname, basename);
      && (c.Some? <==>
           && base.Some? && base.value.job.Some? && base.value.replica.Some? && base.value.task.Some?
           && base.value.kind.Some? && base.value.id.Some? && (local.Some? || full.Some?))
      && (c.Some? ==>
           var p, b := if local.Some? then local.value else full.value, base.value;
           c.value == PrintedName(Name(if p.job.Some? then p.job else b.job,
                                       if p.replica.Some? then p.replica else b.replica,
                                       if p.task.Some? then p.task else b.task,
                                       if p.kind.Some? then p.kind else b.kind,
                                       if p.id.Some? then p.id else b.id)))
  {
    hide ParseLocal, ParseFull, PrintedName;
  }

  /** An identifier is a letter, followed by letters, digits and underscores, by their codes. */
  lemma IdentifierCharacters(s: string)
    ensures IsIdentifier(s) <==>
      && s != "" && (65 <= s[0] as int <= 90 || 97 <= s[0] as int <= 122)
      && forall i | 0 <= i < |s| ::
           65 <= s[i] as int <= 90 || 97 <= s[i] as int <= 122 || 48 <= s[i] as int <= 57 || s[i] as int == 95
  {}
}
