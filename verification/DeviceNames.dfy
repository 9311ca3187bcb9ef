/** Device names of device_name_utils.cc: parsing, printing, canonical forms, and the order of specifications. */
module DeviceNames {
  import opened Basics
  import opened Numbers

  /** What a ParsedName says; a component that is missing or "*" is None. */
  datatype Name = Name(job: Option<string>, replica: Option<int>, task: Option<int>, kind: Option<string>, id: Option<int>)

  const NOTHING := Name(None, None, None, None, None)

  predicate AreInt32(p: Name) {
    && (p.replica.Some? ==> IsInt32(p.replica.value))
    && (p.task.Some? ==> IsInt32(p.task.value))
    && (p.id.Some? ==> IsInt32(p.id.value))
  }

  predicate HasIdentifiers(p: Name) {
    (p.job.Some? ==> IsIdentifier(p.job.value)) && (p.kind.Some? ==> IsIdentifier(p.kind.value))
  }

  /** A name that parsing can give. */
  predicate IsSound(p: Name) {
    HasIdentifiers(p) && AreInt32(p)
  }

  // ---------------------------------------------------------------- characters and pieces

  predicate IsAlpha(c: char) { 'a' <= c <= 'z' || 'A' <= c <= 'Z' }

  predicate IsNameChar(c: char) { IsAlpha(c) || '0' <= c <= '9' || c == '_' }

  predicate AreNameChars(s: string) {
    forall i | 0 <= i < |s| :: IsNameChar(s[i])
  }

  predicate IsIdentifier(s: string) {
    s != "" && IsAlpha(s[0]) && AreNameChars(s)
  }

  /** The position of the first character of s that is among the terminators, or |s|. */
  function Terminator(s: string, terminators: string): (n: nat)
    ensures n <= |s| && (n < |s| ==> s[n] in terminators)
  {
    if s == "" || s[0] in terminators then 0 else 1 + Terminator(s[1..], terminators)
  }

  /** A value read from the front of a text, and the rest. */
  datatype Taken<T> = Refused | Taken(value: T, rest: string)

  /** The static ConsumePrefix of the file: an identifier that ends at a terminator. */
  function TakeIdentifier(s: string, terminators: string): (r: Taken<string>)
    ensures r.Taken? ==> IsIdentifier(r.value) && |r.rest| < |s|
  {
    var n := Terminator(s, terminators);
    if s == "" || !IsAlpha(s[0]) || n == 0 || !AreNameChars(s[..n]) then Refused else Taken(s[..n], s[n..])
  }

  /** A number is narrowed to an int; with `wide`, it is given as it was written. */
  function TakeNumber(s: string, wide: bool := false): (r: Taken<int>)
    ensures r.Taken? ==> |r.rest| < |s| && (wide || IsInt32(r.value))
  {
    var k := LeadingDigits(s);
    if k > 0 && Natural(s[..k]) < TWO_64 then
      Taken(if wide then Natural(s[..k]) else ToInt32(Natural(s[..k])), s[k..])
    else Refused
  }

  /** "*", which stands for any value, or a number. */
  function TakeNumberOrStar(s: string, wide: bool := false): (r: Taken<Option<int>>)
    ensures r.Taken? ==> |r.rest| < |s| && (r.value.Some? ==> wide || IsInt32(r.value.value))
  {
    if "*" <= s then Taken(None, s[1..])
    else
      var n := TakeNumber(s, wide);
      if n.Taken? then Taken(Some(n.value), n.rest) else Refused
  }

  function TakeIdentifierOrStar(s: string, terminators: string): (r: Taken<Option<string>>)
    ensures r.Taken? ==> |r.rest| < |s| && (r.value.Some? ==> IsIdentifier(r.value.value))
  {
    if "*" <= s then Taken(None, s[1..])
    else
      var n := TakeIdentifier(s, terminators);
      if n.Taken? then Taken(Some(n.value), n.rest) else Refused
  }

  method ConsumeIdentifier(s: string, terminators: string) returns (r: Taken<string>)
    ensures r == TakeIdentifier(s, terminators)
  {
    if s == "" || !IsAlpha(s[0]) {
      return Refused;
    }
    var end := 0;
    while end < |s| && s[end] !in terminators
      invariant end <= |s| && Terminator(s, terminators) == end + Terminator(s[end..], terminators)
    {
      assert s[end..][1..] == s[end + 1..];
      end := end + 1;
    }
    var i := 0;
    while i < end
      invariant i <= end && forall k | 0 <= k < i :: IsNameChar(s[k])
    {
      if !IsNameChar(s[i]) {
        assert !IsNameChar(s[..end][i]);
        return Refused;
      }
      i := i + 1;
    }
    if end == 0 {
      return Refused;
    }
    return Taken(s[..end], s[end..]);
  }

  method ConsumeNumber(s: string) returns (r: Taken<int>)
    ensures r == TakeNumber(s)
  {
    var ok, rest, tmp := ConsumeLeadingDigits(s);
    if ok {
      return Taken(ToInt32(tmp), rest);
    } else {
      return Refused;
    }
  }

  // ---------------------------------------------------------------- full names

  /** Whether the text starts with a component, and what it makes of the name so far. */
  datatype Outcome = NoComponent | BadComponent | Next(name: Name, rest: string)

  function ParseJob(s: string, p: Name): (r: Outcome)
    requires "/job:" <= s
    ensures r.Next? ==> |r.rest| < |s| && (IsSound(p) ==> IsSound(r.name))
  {
    var t := TakeIdentifierOrStar(s[5..], "/");
    if t.Taken? then Next(p.(job := t.value), t.rest) else BadComponent
  }

  function ParseReplica(s: string, p: Name, wide: bool := false): (r: Outcome)
    requires "/replica:" <= s
    ensures r.Next? ==> |r.rest| < |s| && (!wide && IsSound(p) ==> IsSound(r.name))
  {
    var t := TakeNumberOrStar(s[9..], wide);
    if t.Taken? then Next(p.(replica := t.value), t.rest) else BadComponent
  }

  function ParseTask(s: string, p: Name, wide: bool := false): (r: Outcome)
    requires "/task:" <= s
    ensures r.Next? ==> |r.rest| < |s| && (!wide && IsSound(p) ==> IsSound(r.name))
  {
    var t := TakeNumberOrStar(s[6..], wide);
    if t.Taken? then Next(p.(task := t.value), t.rest) else BadComponent
  }

  function ParseDevice(s: string, p: Name, wide: bool := false): (r: Outcome)
    requires "/device:" <= s
    ensures r.Next? ==> |r.rest| < |s| && (!wide && IsSound(p) ==> IsSound(r.name))
  {
    var t := TakeIdentifierOrStar(s[8..], "/:");
    if t.Refused? then BadComponent
    else if !(":" <= t.rest) then Next(p.(kind := t.value, id := None), t.rest)
    else
      var n := TakeNumberOrStar(t.rest[1..], wide);
      if n.Taken? then Next(p.(kind := t.value, id := n.value), n.rest) else BadComponent
  }

  /** "/cpu:0" and the like, for "/device:CPU:0". */
  function ParseLegacy(s: string, kind: string, p: Name, wide: bool := false): (r: Outcome)
    requires |s| >= 5 && IsIdentifier(kind)
    ensures r.Next? ==> |r.rest| < |s| && (!wide && IsSound(p) ==> IsSound(r.name))
  {
    var n := TakeNumberOrStar(s[5..], wide);
    if n.Taken? then Next(p.(kind := Some(kind), id := n.value), n.rest) else BadComponent
  }

  function ParseComponent(s: string, p: Name, wide: bool := false): (r: Outcome)
    ensures r.Next? ==> |r.rest| < |s| && (!wide && IsSound(p) ==> IsSound(r.name))
  {
    if "/job:" <= s then ParseJob(s, p)
    else if "/replica:" <= s then ParseReplica(s, p, wide)
    else if "/task:" <= s then ParseTask(s, p, wide)
    else if "/device:" <= s then ParseDevice(s, p, wide)
    else if "/cpu:" <= s || "/CPU:" <= s then ParseLegacy(s, "CPU", p, wide)
    else if "/gpu:" <= s || "/GPU:" <= s then ParseLegacy(s, "GPU", p, wide)
    else NoComponent
  }

  /** Components, one after the other; a later one overrides an earlier one of its kind. */
  function ParseComponents(s: string, p: Name, wide: bool := false): Option<Name>
    decreases |s|
  {
    if s == "" then Some(p)
    else
      var r := ParseComponent(s, p, wide);
      if r.Next? then ParseComponents(r.rest, r.name, wide) else None
  }

  function ParseFull(s: string, wide: bool := false): Option<Name> {
    if s == "/" then Some(NOTHING) else ParseComponents(s, NOTHING, wide)
  }

  /** "cpu:0" */
  function ParseLocal(s: string, wide: bool := false): Option<Name> {
    var t := TakeIdentifier(s, "/:");
    if t.Refused? || !(":" <= t.rest) then None
    else
      var n := TakeNumber(t.rest[1..], wide);
      if n.Taken? && n.rest == "" then Some(NOTHING.(kind := Some(t.value), id := Some(n.value))) else None
  }

  // ---------------------------------------------------------------- printing

  function JobText(p: Name): string {
    if p.job.None? then "" else "/job:" + p.job.value
  }

  function ReplicaText(p: Name): string {
    if p.replica.None? then "" else "/replica:" + Printed(p.replica.value)
  }

  function TaskText(p: Name): string {
    if p.task.None? then "" else "/task:" + Printed(p.task.value)
  }

  function DeviceText(p: Name): string {
    if p.kind.None? then ""
    else "/device:" + p.kind.value + ":" + IdText(p.id)
  }

  function IdText(id: Option<int>): string {
    if id.None? then "*" else Printed(id.value)
  }

  function PrintedName(p: Name): string {
    JobText(p) + (ReplicaText(p) + (TaskText(p) + DeviceText(p)))
  }

  // ---------------------------------------------------------------- parsing what was printed

  /** Where a component may end. */
  predicate IsTail(rest: string) {
    rest == "" || rest[0] == '/'
  }

  lemma {:induction false} TerminatorAfter(s: string, rest: string, terminators: string)
    requires AreNameChars(s) && '/' in terminators && (forall c | c in terminators :: !IsNameChar(c))
    requires rest != "" ==> rest[0] in terminators
    ensures Terminator(s + rest, terminators) == |s|
  {
    if s != "" {
      assert (s + rest)[0] == s[0] && (s + rest)[1..] == s[1..] + rest;
      TerminatorAfter(s[1..], rest, terminators);
    } else {
      assert s + rest == rest;
    }
  }

  lemma TakeIdentifierBack(s: string, rest: string, terminators: string)
    requires IsIdentifier(s) && '/' in terminators && (forall c | c in terminators :: !IsNameChar(c))
    requires rest != "" ==> rest[0] in terminators
    ensures TakeIdentifierOrStar(s + rest, terminators) == Taken(Some(s), rest)
  {
    TerminatorAfter(s, rest, terminators);
    assert (s + rest)[0] == s[0] && (s + rest)[..|s|] == s && (s + rest)[|s|..] == rest;
  }

  /** A printed number is read back unless it is negative. */
  lemma TakeNumberBack(n: int, rest: string)
    requires IsInt32(n) && (rest != "" ==> !IsDigit(rest[0]))
    ensures TakeNumberOrStar(Printed(n) + rest) == if n >= 0 then Taken(Some(n), rest) else Refused
    ensures TakeNumber(Printed(n) + rest) == if n >= 0 then Taken(n, rest) else Refused
  {
    var s := Printed(n) + rest;
    assert s[0] == Printed(n)[0];
    if n >= 0 {
      var d := Decimal(n);
      NaturalDecimal(n);
      assert s[..|d|] == d && s[|d|..] == rest;
      LeadingDigitsAtLeast(s, |d|);
      ScanDone(s, |d|, rest);
    }
  }

  lemma JobBack(p: Name, rest: string, q: Name)
    requires (p.job.Some? ==> IsIdentifier(p.job.value)) && IsTail(rest) && q.job.None?
    ensures ParseComponents(JobText(p) + rest, q) == ParseComponents(rest, q.(job := p.job))
  {
    if p.job.Some? {
      var s := JobText(p) + rest;
      assert "/job:" <= s && s[5..] == p.job.value + rest;
      TakeIdentifierBack(p.job.value, rest, "/");
    } else {
      assert "" + rest == rest;
    }
  }

  lemma ReplicaBack(p: Name, rest: string, q: Name)
    requires (p.replica.Some? ==> IsInt32(p.replica.value)) && IsTail(rest) && q.replica.None?
    ensures ParseComponents(ReplicaText(p) + rest, q) ==
      if p.replica.Some? && p.replica.value < 0 then None else ParseComponents(rest, q.(replica := p.replica))
  {
    if p.replica.Some? {
      var s := ReplicaText(p) + rest;
      assert "/replica:" <= s && s[9..] == Printed(p.replica.value) + rest && s[1] == 'r';
      TakeNumberBack(p.replica.value, rest);
    } else {
      assert "" + rest == rest;
    }
  }

  lemma TaskBack(p: Name, rest: string, q: Name)
    requires (p.task.Some? ==> IsInt32(p.task.value)) && IsTail(rest) && q.task.None?
    ensures ParseComponents(TaskText(p) + rest, q) ==
      if p.task.Some? && p.task.value < 0 then None else ParseComponents(rest, q.(task := p.task))
  {
    if p.task.Some? {
      var s := TaskText(p) + rest;
      assert "/task:" <= s && s[6..] == Printed(p.task.value) + rest && s[1] == 't';
      TakeNumberBack(p.task.value, rest);
    } else {
      assert "" + rest == rest;
    }
  }

  lemma DeviceBack(p: Name, q: Name)
    requires (p.kind.Some? ==> IsIdentifier(p.kind.value)) && (p.id.Some? ==> IsInt32(p.id.value)) && q.kind.None? && q.id.None?
    ensures ParseComponents(DeviceText(p), q) ==
      if p.kind.None? then Some(q)
      else if p.id.Some? && p.id.value < 0 then None
      else Some(q.(kind := p.kind, id := p.id))
  {
    if p.kind.Some? {
      var s := DeviceText(p);
      assert "/device:" <= s && s[1] == 'd';
      DeviceComponentBack(p, q);
      assert ParseComponent(s, q) == ParseDevice(s, q);
      hide ParseComponent, ParseDevice;
    }
  }

  lemma DeviceComponentBack(p: Name, q: Name)
    requires p.kind.Some? && IsIdentifier(p.kind.value) && (p.id.Some? ==> IsInt32(p.id.value)) && q.id.None?
    ensures "/device:" <= DeviceText(p)
    ensures ParseDevice(DeviceText(p), q) ==
      if p.id.Some? && p.id.value < 0 then BadComponent else Next(q.(kind := p.kind, id := p.id), "")
  {
    DeviceTextParts(p);
    KindBack(p.kind.value, IdText(p.id));
    IdBack(p.id);
    hide DeviceText, IdText, TakeIdentifierOrStar, TakeNumberOrStar, IsIdentifier, IsInt32;
  }

  lemma DeviceTextParts(p: Name)
    requires p.kind.Some?
    ensures "/device:" <= DeviceText(p) && DeviceText(p)[8..] == p.kind.value + (":" + IdText(p.id))
  {
    hide IdText;
  }

  lemma KindBack(kind: string, id: string)
    requires IsIdentifier(kind)
    ensures TakeIdentifierOrStar(kind + (":" + id), "/:") == Taken(Some(kind), ":" + id)
    ensures ":" <= ":" + id && (":" + id)[1..] == id
  {
    hide IsIdentifier, TakeIdentifierOrStar;
    TakeIdentifierBack(kind, ":" + id, "/:");
  }

  lemma IdBack(id: Option<int>)
    requires id.Some? ==> IsInt32(id.value)
    ensures TakeNumberOrStar(IdText(id)) == if id.Some? && id.value < 0 then Refused else Taken(id, "")
  {
    if id.Some? {
      TakeNumberBack(id.value, "");
      assert Printed(id.value) + "" == Printed(id.value);
      hide TakeNumberOrStar, Printed;
    }
  }

  /** A number that is printed is negative. */
  predicate PrintsNegative(p: Name) {
    || (p.replica.Some? && p.replica.value < 0)
    || (p.task.Some? && p.task.value < 0)
    || (p.kind.Some? && p.id.Some? && p.id.value < 0)
  }

  /** The name without the id that is not printed. */
  function Shown(p: Name): Name {
    if p.kind.None? then p.(id := None) else p
  }

  lemma ParsedPrintedName(p: Name)
    requires IsSound(p)
    ensures ParseFull(PrintedName(p)) == if PrintsNegative(p) then None else Some(Shown(p))
  {
    var rest2 := DeviceText(p);
    var rest1 := TaskText(p) + rest2;
    var rest0 := ReplicaText(p) + rest1;
    assert IsTail(rest2) && IsTail(rest1) && IsTail(rest0);
    var q0 := NOTHING;
    var q1 := q0.(job := p.job);
    var q2 := q1.(replica := p.replica);
    var q3 := q2.(task := p.task);
    JobBack(p, rest0, q0);
    ReplicaBack(p, rest1, q1);
    TaskBack(p, rest2, q2);
    DeviceBack(p, q3);
    NotSlash(p);
  }

  lemma NotSlash(p: Name)
    ensures PrintedName(p) != "/"
  {
    assert p.job.Some? ==> |PrintedName(p)| >= 5;
    assert p.replica.Some? ==> |ReplicaText(p)| >= 9;
    assert p.task.Some? ==> |TaskText(p)| >= 6;
    assert p.kind.Some? ==> |DeviceText(p)| >= 8;
  }

  /** Whatever is parsed has identifiers for job and type, and numbers that an int holds. */
  lemma {:induction false} ParsedIsSound(s: string, p: Name)
    requires IsSound(p)
    ensures var r := ParseComponents(s, p); r.Some? ==> IsSound(r.value)
    decreases |s|
  {
    hide ParseComponent, IsSound;
    if s != "" {
      var r := ParseComponent(s, p);
      if r.Next? {
        ParsedIsSound(r.rest, r.name);
      }
    }
  }

  /** A printed name is parsed back exactly when job and type are identifiers, no number is negative, and there is
      no id without a type. */
  lemma NameRoundTrip(p: Name)
    requires AreInt32(p)
    ensures ParseFull(PrintedName(p)) == Some(p)
       <==> HasIdentifiers(p) && !PrintsNegative(p) && (p.id.Some? ==> p.kind.Some?)
  {
    if HasIdentifiers(p) {
      ParsedPrintedName(p);
    } else {
      ParsedIsSound(PrintedName(p), NOTHING);
    }
  }

  // ---------------------------------------------------------------- canonical names

  predicate IsComplete(p: Name) {
    p.job.Some? && p.replica.Some? && p.task.Some? && p.kind.Some? && p.id.Some?
  }

  function Or<T>(x: Option<T>, y: Option<T>): Option<T> {
    if x.Some? then x else y
  }

  /** What is missing in p is taken from the other name. */
  function Completed(p: Name, base: Name): Name {
    Name(Or(p.job, base.job), Or(p.replica, base.replica), Or(p.task, base.task), Or(p.kind, base.kind), Or(p.id, base.id))
  }

  function Canonical(fullname: string, basename: string): Option<string> {
    var base := ParseFull(basename);
    if base.None? || !IsComplete(base.value) then None
    else
      var p := Or(ParseLocal(fullname), ParseFull(fullname));
      if p.None? then None else Some(PrintedName(Completed(p.value, base.value)))
  }

  lemma LocalIsSound(s: string)
    ensures var r := ParseLocal(s); r.Some? ==> IsSound(r.value)
  {}

  // What becomes of the numerals as they were written.

  function NarrowNumber(n: Option<int>): Option<int> {
    if n.Some? then Some(ToInt32(n.value)) else None
  }

  function Narrow(p: Name): Name {
    Name(p.job, NarrowNumber(p.replica), NarrowNumber(p.task), p.kind, NarrowNumber(p.id))
  }

  predicate Narrowed(narrow: Outcome, wide: Outcome) {
    && (narrow.Next? <==> wide.Next?)
    && (wide.Next? ==> narrow.rest == wide.rest && narrow.name == Narrow(wide.name))
  }

  lemma NarrowComponent(s: string, p: Name)
    ensures Narrowed(ParseComponent(s, Narrow(p)), ParseComponent(s, p, true))
  {
    hide ParseJob, ParseReplica, ParseTask, ParseDevice, ParseLegacy, Narrowed, Narrow;
    if "/job:" <= s {
      NarrowJob(s, p);
    } else if "/replica:" <= s {
      NarrowReplica(s, p);
    } else if "/task:" <= s {
      NarrowTask(s, p);
    } else if "/device:" <= s {
      NarrowDevice(s, p);
    } else if "/cpu:" <= s || "/CPU:" <= s {
      NarrowLegacy(s, "CPU", p);
    } else if "/gpu:" <= s || "/GPU:" <= s {
      NarrowLegacy(s, "GPU", p);
    } else {
      assert Narrowed(NoComponent, NoComponent) by { NarrowNothing(); }
    }
  }

  lemma NarrowNothing()
    ensures Narrowed(NoComponent, NoComponent)
  {}

  lemma NarrowJob(s: string, p: Name)
    requires "/job:" <= s
    ensures Narrowed(ParseJob(s, Narrow(p)), ParseJob(s, p))
  {
    hide TakeIdentifierOrStar, ToInt32;
  }

  lemma NarrowReplica(s: string, p: Name)
    requires "/replica:" <= s
    ensures Narrowed(ParseReplica(s, Narrow(p)), ParseReplica(s, p, true))
  {
    NarrowTaken(s[9..]);
    hide TakeNumber, ToInt32;
  }

  lemma NarrowTask(s: string, p: Name)
    requires "/task:" <= s
    ensures Narrowed(ParseTask(s, Narrow(p)), ParseTask(s, p, true))
  {
    NarrowTaken(s[6..]);
    hide TakeNumber, ToInt32;
  }

  lemma NarrowDevice(s: string, p: Name)
    requires "/device:" <= s
    ensures Narrowed(ParseDevice(s, Narrow(p)), ParseDevice(s, p, true))
  {
    var t := TakeIdentifierOrStar(s[8..], "/:");
    if t.Taken? && ":" <= t.rest { NarrowTaken(t.rest[1..]); }
    hide TakeNumber, TakeIdentifierOrStar, ToInt32;
  }

  lemma NarrowLegacy(s: string, kind: string, p: Name)
    requires |s| >= 5 && IsIdentifier(kind)
    ensures Narrowed(ParseLegacy(s, kind, Narrow(p)), ParseLegacy(s, kind, p, true))
  {
    NarrowTaken(s[5..]);
    hide TakeNumber, ToInt32;
  }

  lemma NarrowTaken(u: string)
    ensures var narrow, wide := TakeNumber(u), TakeNumber(u, true);
      (narrow.Taken? <==> wide.Taken?) && (wide.Taken? ==> narrow.rest == wide.rest && narrow.value == ToInt32(wide.value))
  {
    hide LeadingDigits, Natural, ToInt32;
  }

  lemma {:induction false} NarrowComponents(s: string, p: Name)
    ensures var narrow, wide := ParseComponents(s, Narrow(p)), ParseComponents(s, p, true);
      (narrow.Some? <==> wide.Some?) && (wide.Some? ==> narrow.value == Narrow(wide.value))
    decreases |s|
  {
    hide ParseComponent, Narrow;
    if s != "" {
      NarrowComponent(s, p);
      var r := ParseComponent(s, p, true);
      if r.Next? {
        NarrowComponents(r.rest, r.name);
      }
    }
  }

  lemma NarrowFull(s: string)
    ensures var narrow, wide := ParseFull(s), ParseFull(s, true);
      (narrow.Some? <==> wide.Some?) && (wide.Some? ==> narrow.value == Narrow(wide.value))
  {
    assert Narrow(NOTHING) == NOTHING;
    NarrowComponents(s, NOTHING);
  }

  lemma NarrowLocal(s: string)
    ensures var narrow, wide := ParseLocal(s), ParseLocal(s, true);
      (narrow.Some? <==> wide.Some?) && (wide.Some? ==> narrow.value == Narrow(wide.value))
  {
    hide LeadingDigits, Natural, ToInt32;
  }

  /** The canonical name with the numerals as they stand in the texts: those of the local or full name and, where it
      has none, those of the base name. */
  function Written(fullname: string, basename: string): Name
    requires Canonical(fullname, basename).Some?
  {
    NarrowLocal(fullname);
    NarrowFull(fullname);
    NarrowFull(basename);
    Completed(Or(ParseLocal(fullname, true), ParseFull(fullname, true)).value, ParseFull(basename, true).value)
  }

  predicate FitsInt(n: Option<int>) {
    n.Some? ==> n.value % TWO_32 < TWO_31
  }

  predicate NumeralsFit(p: Name) {
    FitsInt(p.replica) && FitsInt(p.task) && FitsInt(p.id)
  }

  /** Canonicalizing a canonical name over any complete base name changes nothing if every numeral that counts is
      below 2^31 modulo 2^32; otherwise the canonical name holds a negative number and is refused. */
  lemma CanonicalIsIdempotent(fullname: string, basename: string, other: string)
    requires Canonical(fullname, basename).Some?
    requires ParseFull(other).Some? && IsComplete(ParseFull(other).value)
    ensures var c := Canonical(fullname, basename).value;
      Canonical(c, other) == if NumeralsFit(Written(fullname, basename)) then Some(c) else None
  {
    hide ParseComponents, ParseLocal, PrintedName;
    NarrowLocal(fullname);
    NarrowFull(fullname);
    NarrowFull(basename);
    var base := ParseFull(basename).value;
    var q := Completed(Or(ParseLocal(fullname), ParseFull(fullname)).value, base);
    assert q == Narrow(Written(fullname, basename));
    ParsedIsSound(basename, NOTHING);
    ParsedIsSound(fullname, NOTHING);
    LocalIsSound(fullname);
    CompletePrinted(q);
    assert PrintsNegative(q) <==> !NumeralsFit(Written(fullname, basename));
    assert Completed(q, ParseFull(other).value) == q;
  }

  /** A complete name, printed, is not a local name. */
  lemma CompletePrinted(q: Name)
    requires IsSound(q) && IsComplete(q)
    ensures ParseLocal(PrintedName(q)).None?
    ensures ParseFull(PrintedName(q)) == if PrintsNegative(q) then None else Some(q)
  {
    ParsedPrintedName(q);
    assert PrintedName(q)[0] == '/';
    LocalStartsWithLetter(PrintedName(q));
  }

  const PLACE: string := "/job:a" + "/replica:0" + "/task:0" + "/device:CPU:"

  /** The name on device id of job a, replica 0, task 0. */
  function OnCpu(id: int): Name {
    Name(Some("a"), Some(0), Some(0), Some("CPU"), Some(id))
  }

  lemma OnCpuPrinted(id: int)
    requires IsInt32(id)
    ensures PrintedName(OnCpu(id)) == PLACE + Printed(id) && ParseLocal(PLACE + Printed(id)).None?
    ensures ParseFull(PLACE + Printed(id)) == if id < 0 then None else Some(OnCpu(id))
  {
    OnCpuTexts(id);
    assert IsSound(OnCpu(id)) && IsComplete(OnCpu(id)) && (PrintsNegative(OnCpu(id)) <==> id < 0);
    hide *;
    CompletePrinted(OnCpu(id));
  }

  lemma OnCpuTexts(id: int)
    ensures PrintedName(OnCpu(id)) == PLACE + Printed(id)
  {
    ZeroPrinted();
    hide Printed;
    var p, d := OnCpu(id), "/device:CPU:" + Printed(id);
    assert JobText(p) == "/job:a" && ReplicaText(p) == "/replica:0" && TaskText(p) == "/task:0" && DeviceText(p) == d;
    hide JobText, ReplicaText, TaskText, DeviceText;
    Flattened("/job:a", "/replica:0", "/task:0", d);
    assert "/job:a" + "/replica:0" + "/task:0" + d == PLACE + Printed(id);
  }

  lemma ZeroPrinted()
    ensures Printed(0) == "0" && Printed(-1) == "-1"
  {
    assert Decimal(0) == "0" && Decimal(1) == "1";
  }

  lemma LargeNumeral()
    ensures TakeNumber("4294967295") == Taken(-1, "")
  {
    DecimalIs();
    NaturalDecimal(4294967295);
    hide *;
    DigitsTaken("4294967295", 4294967295);
    assert ToInt32(4294967295) == -1 by { Narrows(); }
  }

  lemma Narrows()
    ensures ToInt32(4294967295) == -1
  {}

  lemma DigitsTaken(s: string, n: nat)
    requires s != "" && AreDigits(s) && Natural(s) == n < TWO_64
    ensures TakeNumber(s) == Taken(ToInt32(n), "")
  {
    hide Natural, ToInt32;
    assert s[..|s|] == s;
    LeadingDigitsAtLeast(s, |s|);
  }

  lemma NextDigit(n: nat, s: string, d: nat)
    requires n > 0 && d < 10 && Decimal(n) == s
    ensures Decimal(10 * n + d) == s + [Digit(d)]
  {}

  lemma DecimalIs()
    ensures Decimal(4294967295) == "4294967295"
  {
    assert Decimal(4) == "4";
    NextDigit(4, "4", 2);
    NextDigit(42, "42", 9);
    NextDigit(429, "429", 4);
    NextDigit(4294, "4294", 9);
    NextDigit(42949, "42949", 6);
    NextDigit(429496, "429496", 7);
    NextDigit(4294967, "4294967", 2);
    NextDigit(42949672, "42949672", 9);
    NextDigit(429496729, "429496729", 5);
  }

  lemma LocalParsed()
    ensures ParseLocal("CPU:4294967295") == Some(NOTHING.(kind := Some("CPU"), id := Some(-1)))
  {
    var s, n := "CPU:4294967295", "4294967295";
    LargeNumeral();
    hide TakeNumber;
    assert s == "CPU" + (":" + n) && (":" + n)[1..] == n && s[0] == 'C';
    assert IsIdentifier("CPU");
    TakeIdentifierBack("CPU", ":" + n, "/:");
    assert TakeIdentifier(s, "/:") == Taken("CPU", ":" + n);
    hide TakeIdentifier, TakeIdentifierOrStar;
  }

  /** A numeral of 2^32 - 1 is narrowed to -1: the canonical name it leads to is not a device name. */
  lemma LargeNumeralTurnsNegative()
    ensures Canonical("CPU:4294967295", PLACE + "0") == Some(PLACE + "-1")
    ensures Canonical(PLACE + "-1", PLACE + "0").None?
  {
    OnCpuCompleted(-1, 0);
    assert IsInt32(0) && IsInt32(-1);
    hide *;
    ZeroPrinted();
    OnCpuPrinted(0);
    OnCpuPrinted(-1);
    LocalParsed();
    CanonicalLocal("CPU:4294967295", PLACE + "0", NOTHING.(kind := Some("CPU"), id := Some(-1)), OnCpu(0));
    CanonicalRefused(PLACE + "-1", PLACE + "0");
  }

  lemma OnCpuCompleted(id: int, other: int)
    ensures Completed(NOTHING.(kind := Some("CPU"), id := Some(id)), OnCpu(other)) == OnCpu(id) && IsComplete(OnCpu(other))
  {}

  lemma CanonicalLocal(fullname: string, basename: string, p: Name, base: Name)
    requires ParseLocal(fullname) == Some(p) && ParseFull(basename) == Some(base) && IsComplete(base)
    ensures Canonical(fullname, basename) == Some(PrintedName(Completed(p, base)))
  {}

  lemma CanonicalRefused(fullname: string, basename: string)
    requires ParseLocal(fullname).None? && ParseFull(fullname).None?
    ensures Canonical(fullname, basename).None?
  {}

  // ---------------------------------------------------------------- specifications

  predicate Covers<T(==)>(less: Option<T>, more: Option<T>) {
    less.Some? ==> more == less
  }

  /** IsSpecification */
  predicate Specifies(less: Name, more: Name) {
    && Covers(less.job, more.job) && Covers(less.replica, more.replica) && Covers(less.task, more.task)
    && Covers(less.kind, more.kind) && Covers(less.id, more.id)
  }

  predicate Agree<T(==)>(x: Option<T>, y: Option<T>) {
    x.Some? && y.Some? ==> x == y
  }

  /** AreCompatibleDevNames */
  predicate Compatible(a: Name, b: Name) {
    Agree(a.job, b.job) && Agree(a.replica, b.replica) && Agree(a.task, b.task) && Agree(a.kind, b.kind) && Agree(a.id, b.id)
  }

  /** Two names are compatible exactly when some name is a specification of both. */
  lemma CompatibleIffCommon(a: Name, b: Name)
    ensures Compatible(a, b) <==> exists m :: Specifies(a, m) && Specifies(b, m)
  {
    if Compatible(a, b) {
      assert Specifies(a, Completed(b, a)) && Specifies(b, Completed(b, a));
    }
  }

  /** The merged name is the least specification of both. */
  lemma MergedIsLeast(a: Name, b: Name, m: Name)
    requires Compatible(a, b)
    ensures Specifies(a, Completed(b, a)) && Specifies(b, Completed(b, a)) && Completed(b, a) == Completed(a, b)
    ensures Specifies(Completed(b, a), m) <==> Specifies(a, m) && Specifies(b, m)
  {}

  /** Being a specification is a partial order. */
  lemma SpecifiesIsOrder(a: Name, b: Name, c: Name)
    ensures Specifies(a, a)
    ensures Specifies(a, b) && Specifies(b, a) ==> a == b
    ensures Specifies(a, b) && Specifies(b, c) ==> Specifies(a, c)
  {}

  // ---------------------------------------------------------------- ParsedName

  lemma ComponentIs(s: string, p: Name)
    ensures "/job:" <= s ==> ParseComponent(s, p) == ParseJob(s, p)
    ensures "/replica:" <= s ==> ParseComponent(s, p) == ParseReplica(s, p)
    ensures "/task:" <= s ==> ParseComponent(s, p) == ParseTask(s, p)
    ensures "/device:" <= s ==> ParseComponent(s, p) == ParseDevice(s, p)
    ensures "/cpu:" <= s || "/CPU:" <= s ==> ParseComponent(s, p) == ParseLegacy(s, "CPU", p)
    ensures "/gpu:" <= s || "/GPU:" <= s ==> ParseComponent(s, p) == ParseLegacy(s, "GPU", p)
  {
    if |s| >= 2 {
      assert "/job:" <= s ==> s[1] == 'j';
      assert "/replica:" <= s ==> s[1] == 'r';
      assert "/task:" <= s ==> s[1] == 't';
      assert "/device:" <= s ==> s[1] == 'd';
      assert "/cpu:" <= s ==> s[1] == 'c';
      assert "/CPU:" <= s ==> s[1] == 'C';
      assert "/gpu:" <= s ==> s[1] == 'g';
      assert "/GPU:" <= s ==> s[1] == 'G';
    }
  }

  lemma NoneMatches(s: string, p: Name)
    requires s != "" && !("/job:" <= s) && !("/replica:" <= s) && !("/task:" <= s) && !("/device:" <= s)
    requires !("/cpu:" <= s || "/CPU:" <= s) && !("/gpu:" <= s || "/GPU:" <= s)
    ensures ParseComponents(s, p).None?
  {}

  class ParsedName {
    var hasJob: bool
    var job: string
    var hasReplica: bool
    var replica: int
    var hasTask: bool
    var task: int
    var hasType: bool
    var kind: string
    var hasId: bool
    var id: int

    ghost function View(): Name
      reads this
    {
      Name(if hasJob then Some(job) else None, if hasReplica then Some(replica) else None,
           if hasTask then Some(task) else None, if hasType then Some(kind) else None,
           if hasId then Some(id) else None)
    }

    constructor ()
      ensures View() == NOTHING && fresh(this)
    {
      hasJob, hasReplica, hasTask, hasType, hasId := false, false, false, false, false;
      job, replica, task, kind, id := "", 0, 0, "", 0;
    }

    method Clear()
      modifies this
      ensures View() == NOTHING
    {
      hasJob, hasReplica, hasTask, hasType, hasId := false, false, false, false, false;
      job, replica, task, kind, id := "", 0, 0, "", 0;
    }

    /** operator==: values of components that are not set do not matter. */
    method Equals(other: ParsedName) returns (equal: bool)
      ensures equal <==> View() == other.View()
    {
      return
        (if hasJob then other.hasJob && job == other.job else !other.hasJob)
        && (if hasReplica then other.hasReplica && replica == other.replica else !other.hasReplica)
        && (if hasTask then other.hasTask && task == other.task else !other.hasTask)
        && (if hasType then other.hasType && kind == other.kind else !other.hasType)
        && (if hasId then other.hasId && id == other.id else !other.hasId);
    }

    /** One section of the loop of ParseFullName: `rest` is the text after the component, if there is one, and
        parsing goes on from there as it would have gone on from the component. */
    twostate predicate Tried(new s: string, new matched: bool, new ok: bool, new rest: string)
      reads this
    {
      && (!matched ==> ok && rest == s && View() == old(View()))
      && (matched ==> s != "" && s[0] == '/' && (ok ==> |rest| < |s|))
      && (ok ==> ParseComponents(rest, View()) == ParseComponents(s, old(View())))
      && (!ok ==> ParseComponents(s, old(View())).None?)
    }

    method TryJob(s: string) returns (matched: bool, ok: bool, rest: string)
      modifies this
      ensures (matched <==> "/job:" <= s) && Tried(s, matched, ok, rest)
    {
      ComponentIs(s, View());
      matched, ok, rest := "/job:" <= s, true, s;
      if matched {
        rest := s[5..];
        hasJob := !("*" <= rest);
        if !hasJob {
          rest := rest[1..];
        } else {
          var r := ConsumeIdentifier(rest, "/");
          if r.Refused? {
            return matched, false, rest;
          }
          job, rest := r.value, r.rest;
        }
      }
    }

    method TryReplica(s: string) returns (matched: bool, ok: bool, rest: string)
      modifies this
      ensures (matched <==> "/replica:" <= s) && Tried(s, matched, ok, rest)
    {
      ComponentIs(s, View());
      matched, ok, rest := "/replica:" <= s, true, s;
      if matched {
        rest := s[9..];
        hasReplica := !("*" <= rest);
        if !hasReplica {
          rest := rest[1..];
        } else {
          var r := ConsumeNumber(rest);
          if r.Refused? {
            return matched, false, rest;
          }
          replica, rest := r.value, r.rest;
        }
      }
    }

    method TryTask(s: string) returns (matched: bool, ok: bool, rest: string)
      modifies this
      ensures (matched <==> "/task:" <= s) && Tried(s, matched, ok, rest)
    {
      ComponentIs(s, View());
      matched, ok, rest := "/task:" <= s, true, s;
      if matched {
        rest := s[6..];
        hasTask := !("*" <= rest);
        if !hasTask {
          rest := rest[1..];
        } else {
          var r := ConsumeNumber(rest);
          if r.Refused? {
            return matched, false, rest;
          }
          task, rest := r.value, r.rest;
        }
      }
    }

    method TryDevice(s: string) returns (matched: bool, ok: bool, rest: string)
      modifies this
      ensures (matched <==> "/device:" <= s) && Tried(s, matched, ok, rest)
    {
      ComponentIs(s, View());
      hide ParseComponent, TakeIdentifierOrStar, TakeNumberOrStar;
      matched, ok, rest := "/device:" <= s, true, s;
      if matched {
        ok, rest := ReadKind(s[8..]);
        if !ok {
          return;
        }
        if !(":" <= rest) {
          hasId := false;
        } else {
          ok, rest := ReadId(rest[1..]);
        }
      }
    }

    /** The type of a device. */
    method ReadKind(s: string) returns (ok: bool, rest: string)
      modifies this`hasType, this`kind
      ensures ok <==> TakeIdentifierOrStar(s, "/:").Taken?
      ensures ok ==> rest == TakeIdentifierOrStar(s, "/:").rest
      ensures ok ==> View() == old(View()).(kind := TakeIdentifierOrStar(s, "/:").value)
    {
      hide TakeIdentifier;
      hasType := !("*" <= s);
      if !hasType {
        return true, s[1..];
      }
      var r := ConsumeIdentifier(s, "/:");
      if r.Refused? {
        return false, s;
      }
      kind := r.value;
      return true, r.rest;
    }

    /** The id after a colon. */
    method ReadId(s: string) returns (ok: bool, rest: string)
      modifies this`hasId, this`id
      ensures ok <==> TakeNumberOrStar(s).Taken?
      ensures ok ==> rest == TakeNumberOrStar(s).rest && View() == old(View()).(id := TakeNumberOrStar(s).value)
    {
      hasId := !("*" <= s);
      if !hasId {
        return true, s[1..];
      }
      var r := ConsumeNumber(s);
      if r.Refused? {
        return false, s;
      }
      id := r.value;
      return true, r.rest;
    }

    method TryLegacy(s: string, lower: string, upper: string, name: string) returns (matched: bool, ok: bool, rest: string)
      requires (lower, upper, name) in {("/cpu:", "/CPU:", "CPU"), ("/gpu:", "/GPU:", "GPU")}
      modifies this
      ensures (matched <==> lower <= s || upper <= s) && Tried(s, matched, ok, rest)
    {
      ComponentIs(s, View());
      matched, ok, rest := lower <= s || upper <= s, true, s;
      if matched {
        hasType := true;
        kind := name;
        ok, rest := ReadId(s[5..]);
      }
    }

    method ParseFullName(fullname: string) returns (ok: bool)
      modifies this
      ensures ok <==> ParseFull(fullname).Some?
      ensures ok ==> View() == ParseFull(fullname).value
      ensures !ok && fullname[0] != '/' ==> View() == NOTHING
    {
      Clear();
      if fullname == "/" {
        return true;
      }
      var s := fullname;
      while s != ""
        invariant ParseComponents(s, View()) == ParseComponents(fullname, NOTHING)
        invariant s == fullname || fullname[0] == '/'
        invariant s == fullname ==> View() == NOTHING
        decreases |s|
      {
        var progress, more;
        progress, more, s := ParseSections(s);
        if !more {
          return false;
        }
        if !progress {
          return false;
        }
      }
      return true;
    }

    /** The body of the loop of ParseFullName. */
    method ParseSections(text: string) returns (progress: bool, ok: bool, s: string)
      requires text != ""
      modifies this
      ensures !ok ==> ParseComponents(text, old(View())).None? && text[0] == '/'
      ensures ok ==> ParseComponents(s, View()) == ParseComponents(text, old(View()))
      ensures progress ==> text[0] == '/' && (ok ==> |s| < |text|)
      ensures ok && !progress ==> s == text && View() == old(View()) && ParseComponents(text, View()).None?
    {
      hide ParseComponents, ParseComponent;
      var matched1, matched2, matched3, matched4, matched5, matched6;
      progress := false;
      matched1, ok, s := TryJob(text);
      if !ok { return; }
      matched2, ok, s := TryReplica(s);
      if !ok { return; }
      matched3, ok, s := TryTask(s);
      if !ok { return; }
      matched4, ok, s := TryDevice(s);
      if !ok { return; }
      matched5, ok, s := TryLegacy(s, "/cpu:", "/CPU:", "CPU");
      if !ok { return; }
      matched6, ok, s := TryLegacy(s, "/gpu:", "/GPU:", "GPU");
      if !ok { return; }
      progress := matched1 || matched2 || matched3 || matched4 || matched5 || matched6;
      if !progress {
        NoneMatches(text, View());
      }
    }

    /** Sets type and id only; they may have been set when it fails. */
    method ParseLocalName(name: string) returns (ok: bool)
      modifies this
      ensures ok <==> ParseLocal(name).Some?
      ensures ok ==> View() == old(View()).(kind := ParseLocal(name).value.kind, id := ParseLocal(name).value.id)
    {
      var t := ConsumeIdentifier(name, "/:");
      if t.Refused? {
        return false;
      }
      kind := t.value;
      hasType := true;
      if !(":" <= t.rest) {
        return false;
      }
      var n := ConsumeNumber(t.rest[1..]);
      if n.Refused? {
        return false;
      }
      id := n.value;
      hasId := true;
      return n.rest == "";
    }

    /** What the failed attempt at a full name leaves behind does not show in a local name. */
    method ParseFullOrLocalName(fullname: string) returns (ok: bool)
      modifies this
      ensures ok <==> ParseFull(fullname).Some? || ParseLocal(fullname).Some?
      ensures ok ==> View() == Or(ParseFull(fullname), ParseLocal(fullname)).value
    {
      ok := ParseFullName(fullname);
      if !ok {
        LocalStartsWithLetter(fullname);
        ok := ParseLocalName(fullname);
      }
    }

    method CompleteFrom(base: ParsedName)
      requires IsComplete(base.View())
      modifies this
      ensures View() == Completed(old(View()), old(base.View()))
    {
      if !hasJob {
        job, hasJob := base.job, true;
      }
      if !hasReplica {
        replica, hasReplica := base.replica, true;
      }
      if !hasTask {
        task, hasTask := base.task, true;
      }
      if !hasType {
        kind, hasType := base.kind, true;
      }
      if !hasId {
        id, hasId := base.id, true;
      }
    }

    method ToText() returns (buf: string)
      ensures buf == PrintedName(View())
    {
      hide Printed;
      ghost var p := View();
      buf := "";
      if hasJob {
        buf := buf + ("/job:" + job);
      }
      assert buf == JobText(p);
      if hasReplica {
        buf := buf + ("/replica:" + Printed(replica));
      }
      assert buf == JobText(p) + ReplicaText(p);
      if hasTask {
        buf := buf + ("/task:" + Printed(task));
      }
      assert buf == JobText(p) + ReplicaText(p) + TaskText(p);
      ghost var front := buf;
      if hasType {
        buf := buf + ("/device:" + kind + ":");
        if hasId {
          buf := buf + Printed(id);
        } else {
          buf := buf + "*";
        }
      }
      assert buf == front + DeviceText(p);
      hide JobText, ReplicaText, TaskText, DeviceText;
      Flattened(JobText(p), ReplicaText(p), TaskText(p), DeviceText(p));
    }

    /** EnsureSpecification, the minimal change that makes this name a specification of the other. */
    method EnsureSpecification(less: ParsedName)
      modifies this
      ensures View() == Completed(old(less.View()), old(View())) && Specifies(old(less.View()), View())
    {
      ghost var a, b := less.View(), View();
      EnsurePlace(less);
      if less.hasType {
        hasType, kind := true, less.kind;
      }
      if less.hasId {
        hasId, id := true, less.id;
      }
      assert View() == Completed(a, b);
    }

    /** Job, replica and task. */
    method EnsurePlace(less: ParsedName)
      modifies this`hasJob, this`job, this`hasReplica, this`replica, this`hasTask, this`task
      ensures var a, b := old(less.View()), old(View());
        View() == b.(job := Or(a.job, b.job), replica := Or(a.replica, b.replica), task := Or(a.task, b.task))
    {
      if less.hasJob {
        hasJob, job := true, less.job;
      }
      if less.hasReplica {
        hasReplica, replica := true, less.replica;
      }
      if less.hasTask {
        hasTask, task := true, less.task;
      }
    }

    /** The first half of MergeDevNamesImpl. */
    method MergePlace(other: ParsedName) returns (ok: bool)
      modifies this`hasJob, this`job, this`hasReplica, this`replica, this`hasTask, this`task
      ensures ok <==> var a, b := old(View()), old(other.View());
        Agree(a.job, b.job) && Agree(a.replica, b.replica) && Agree(a.task, b.task)
      ensures ok ==> var c := Completed(old(other.View()), old(View()));
        View() == old(View()).(job := c.job, replica := c.replica, task := c.task)
    {
      if other.hasJob {
        if hasJob && job != other.job {
          return false;
        } else {
          hasJob, job := other.hasJob, other.job;
        }
      }
      if other.hasReplica {
        if hasReplica && replica != other.replica {
          return false;
        } else {
          hasReplica, replica := other.hasReplica, other.replica;
        }
      }
      if other.hasTask {
        if hasTask && task != other.task {
          return false;
        } else {
          hasTask, task := other.hasTask, other.task;
        }
      }
      return true;
    }

    /** The second half. */
    method MergeDevice(other: ParsedName, allowSoftPlacement: bool, overrideConflicts: bool) returns (ok: bool)
      modifies this`hasType, this`kind, this`hasId, this`id
      ensures ok <==> var a, b := old(View()), old(other.View()); allowSoftPlacement || (Agree(a.kind, b.kind) && Agree(a.id, b.id))
      ensures ok ==> var c := MergedName(old(View()), old(other.View()), overrideConflicts);
        View() == old(View()).(kind := c.kind, id := c.id)
    {
      if other.hasType {
        if hasType && kind != other.kind {
          if !allowSoftPlacement {
            return false;
          } else if overrideConflicts {
            kind := other.kind;
          } else {
            hasId := false;
            hasType := false;
            return true;
          }
        } else {
          hasType, kind := other.hasType, other.kind;
        }
      }
      if other.hasId {
        if hasId && id != other.id {
          if !allowSoftPlacement {
            return false;
          } else if overrideConflicts {
            id := other.id;
          } else {
            hasId := false;
            return true;
          }
        } else {
          hasId, id := other.hasId, other.id;
        }
      }
      return true;
    }

    /** MergeDevNamesImpl. When it fails, the components before the one in conflict have been merged. */
    method Merge(other: ParsedName, allowSoftPlacement: bool, overrideConflicts: bool) returns (ok: bool)
      modifies this
      ensures ok <==> Mergeable(old(View()), old(other.View()), allowSoftPlacement)
      ensures ok ==> View() == MergedName(old(View()), old(other.View()), overrideConflicts)
    {
      ok := MergePlace(other);
      if ok {
        ok := MergeDevice(other, allowSoftPlacement, overrideConflicts);
      }
    }
  }

  /** Job, replica and task have to agree; type and id too, unless soft placement is allowed. */
  predicate Mergeable(a: Name, b: Name, soft: bool) {
    && Agree(a.job, b.job) && Agree(a.replica, b.replica) && Agree(a.task, b.task)
    && (soft || (Agree(a.kind, b.kind) && Agree(a.id, b.id)))
  }

  /** With conflicts in type or id, the other name wins, or the conflicting component is dropped: an id in any
      case when the types are in conflict. */
  function MergedName(a: Name, b: Name, override: bool): Name {
    var c := Completed(b, a);
    if override then c
    else if !Agree(a.kind, b.kind) then c.(kind := None, id := None)
    else if !Agree(a.id, b.id) then c.(id := None)
    else c
  }

  /** Without soft placement, merging succeeds exactly for compatible names, and gives the least specification. */
  lemma StrictMerge(a: Name, b: Name, override: bool)
    ensures Mergeable(a, b, false) <==> Compatible(a, b)
    ensures Compatible(a, b) ==> MergedName(a, b, override) == Completed(b, a)
  {}

  /** With soft placement and without overriding, the result contradicts neither name. */
  lemma SoftMerge(a: Name, b: Name)
    requires Mergeable(a, b, true)
    ensures Compatible(MergedName(a, b, false), a) && Compatible(MergedName(a, b, false), b)
    ensures Agree(a.kind, b.kind) ==> MergedName(a, b, false).kind == Completed(b, a).kind
  {}

  /** A conflict in the types drops type and id, one in the ids only the id. */
  lemma ConflictsAreDropped(a: Name, b: Name)
    requires Mergeable(a, b, true)
    ensures var m := MergedName(a, b, false);
      && (a.kind.Some? && b.kind.Some? && a.kind != b.kind ==> m.kind.None? && m.id.None?)
      && (a.id.Some? && b.id.Some? && a.id != b.id ==> m.id.None?)
      && (Compatible(a, b) ==> Specifies(a, m) && Specifies(b, m))
      && (!(a.kind.Some? && b.kind.Some? && a.kind != b.kind) ==> Covers(a.kind, m.kind) && Covers(b.kind, m.kind))
  {}

  /** With soft placement and overriding, the other name wins: the result specifies it, and keeps the rest. */
  lemma OtherNameWins(a: Name, b: Name)
    requires Mergeable(a, b, true)
    ensures var m := MergedName(a, b, true);
      && Specifies(b, m)
      && (b.job.None? ==> m.job == a.job) && (b.replica.None? ==> m.replica == a.replica)
      && (b.task.None? ==> m.task == a.task) && (b.kind.None? ==> m.kind == a.kind) && (b.id.None? ==> m.id == a.id)
  {}

  /** With soft placement only the place has to be compatible. */
  lemma SoftMergeable(a: Name, b: Name)
    ensures Mergeable(a, b, true) <==> Compatible(a.(kind := None, id := None), b.(kind := None, id := None))
  {}

  lemma LocalStartsWithLetter(s: string)
    ensures ParseLocal(s).Some? ==> s != "" && s[0] != '/'
  {}

  lemma Flattened(j: string, r: string, t: string, d: string)
    ensures j + (r + (t + d)) == j + r + t + d
  {}

  method CanonicalizeDeviceName(fullname: string, basename: string) returns (ok: bool, canonical: string)
    ensures ok <==> Canonical(fullname, basename).Some?
    ensures canonical == if ok then Canonical(fullname, basename).value else ""
  {
    canonical := "";
    var base := new ParsedName();
    var parsed := base.ParseFullName(basename);
    if !parsed {
      return false, "";
    }
    if !(base.hasJob && base.hasReplica && base.hasTask && base.hasType && base.hasId) {
      return false, "";
    }
    var name := new ParsedName();
    var local := name.ParseLocalName(fullname);
    if local {
      name.CompleteFrom(base);
      canonical := name.ToText();
      return true, canonical;
    }
    var full := name.ParseFullName(fullname);
    if full {
      name.CompleteFrom(base);
      canonical := name.ToText();
      return true, canonical;
    }
    return false, "";
  }
}
