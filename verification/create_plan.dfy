/**
 * The plan editor: an in-memory list of exercises edited through a form,
 * a validity gate on the Save button, and the save that writes the plan,
 * the catalogue rows it needs and one link per exercise to the backend.
 */
module CreatePlan {
  import opened Store

  /** An exercise as listed in the editor; `sets` is the parsed set count. */
  datatype Exercise = Exercise(name: string, kind: ExerciseType, sets: int)

  /** The catalogue key a save looks the exercise up by. */
  function KeyOf(ex: Exercise, user: UserId): CatalogueRow
  {
    CatalogueRow(ex.name, ex.kind, user)
  }

  // ---------------------------------------------------------------------
  // Editing the list

  /**
   * The list without the entry at `index`: keeps every entry whose
   * position differs from `index`, as a filter over positions does.
   */
  function Without<T>(s: seq<T>, index: int): (r: seq<T>)
    ensures 0 <= index < |s| ==> r == s[..index] + s[index + 1..]
    ensures !(0 <= index < |s|) ==> r == s
  {
    if s == [] then []
    else (if index == 0 then [] else [s[0]]) + Without(s[1..], index - 1)
  }

  /** The characters the ECMAScript String.prototype.trim removes: white space and line terminators. */
  predicate IsWhitespace(c: char)
  {
    c == ' ' || c == '\t' || c == '\n' || c == '\r' || c == '\U{000B}' || c == '\U{000C}'
    || c == '\U{00A0}' || c == '\U{1680}' || '\U{2000}' <= c <= '\U{200A}'
    || c == '\U{2028}' || c == '\U{2029}' || c == '\U{202F}' || c == '\U{205F}'
    || c == '\U{3000}' || c == '\U{FEFF}'
  }

  function TrimStart(s: string): (r: string)
    ensures |r| <= |s| && r == s[|s| - |r|..]
    ensures forall i :: 0 <= i < |s| - |r| ==> IsWhitespace(s[i])
    ensures r != [] ==> !IsWhitespace(r[0])
  {
    if s != [] && IsWhitespace(s[0]) then TrimStart(s[1..]) else s
  }

  function TrimEnd(s: string): (r: string)
    ensures |r| <= |s| && r == s[..|r|]
    ensures forall i :: |r| <= i < |s| ==> IsWhitespace(s[i])
    ensures r != [] ==> !IsWhitespace(r[|r| - 1])
  {
    if s != [] && IsWhitespace(s[|s| - 1]) then TrimEnd(s[..|s| - 1]) else s
  }

  /**
   * `s` without its leading and trailing white space: the result is the part
   * of `s` starting at some position `a`, everything before `a` and after the
   * result is white space, and the result neither starts nor ends with it.
   */
  function Trim(s: string): (r: string)
    ensures r == [] <==> forall i :: 0 <= i < |s| ==> IsWhitespace(s[i])
    ensures r != [] ==> !IsWhitespace(r[0]) && !IsWhitespace(r[|r| - 1])
    ensures exists a :: 0 <= a <= |s| - |r| && r == s[a..][..|r|]
              && (forall i :: 0 <= i < a ==> IsWhitespace(s[i]))
              && (forall i :: a + |r| <= i < |s| ==> IsWhitespace(s[i]))
  {
    TrimIsMiddle(s);
    TrimEnd(TrimStart(s))
  }

  /** Trimming keeps the part of `s` after its leading white space and before its trailing white space. */
  lemma TrimIsMiddle(s: string)
    ensures var a := |s| - |TrimStart(s)|; var r := TrimEnd(TrimStart(s));
      && 0 <= a <= |s| - |r| && r == s[a..][..|r|]
      && (forall i :: 0 <= i < a ==> IsWhitespace(s[i]))
      && (forall i :: a + |r| <= i < |s| ==> IsWhitespace(s[i]))
  {
    var t := TrimStart(s);
    var a := |s| - |t|;
    var r := TrimEnd(t);
    assert t == s[a..];
    forall i | a + |r| <= i < |s| ensures IsWhitespace(s[i]) {
      assert s[i] == t[i - a];
    }
  }

  /** Whether the plan may be saved: a name that is not blank and at least one exercise. */
  function IsFormValid(planName: string, exercises: seq<Exercise>): (valid: bool)
    ensures valid <==> (exists i :: 0 <= i < |planName| && !IsWhitespace(planName[i])) && |exercises| > 0
  {
    Trim(planName) != "" && |exercises| > 0
  }

  // ---------------------------------------------------------------------
  // Reading the sets text

  /** A digit in base `radix`: 0-9 in base 10; in base 16 also a-f and A-F. */
  predicate IsDigit(c: char, radix: nat)
  {
    '0' <= c <= '9' || (radix == 16 && ('a' <= c <= 'f' || 'A' <= c <= 'F'))
  }

  function DigitValue(c: char): nat
  {
    if '0' <= c <= '9' then c as int - '0' as int
    else if 'a' <= c <= 'f' then c as int - 'a' as int + 10
    else if 'A' <= c <= 'F' then c as int - 'A' as int + 10
    else 0
  }

  /** The longest prefix of `s` made of digits in base `radix`. */
  function DigitPrefix(s: string, radix: nat): (d: string)
    ensures |d| <= |s| && d == s[..|d|]
    ensures forall i :: 0 <= i < |d| ==> IsDigit(d[i], radix)
    ensures |d| < |s| ==> !IsDigit(s[|d|], radix)
  {
    if s != [] && IsDigit(s[0], radix) then [s[0]] + DigitPrefix(s[1..], radix) else []
  }

  /** The number the digit string `d` denotes in base `radix`, most significant digit first. */
  function Value(d: string, radix: nat): nat
  {
    if d == [] then 0 else radix * Value(d[..|d| - 1], radix) + DigitValue(d[|d| - 1])
  }

  /**
   * The integer the ECMAScript parseInt reads, given no radix, from the start
   * of a text: after leading white space, an optional sign, then a `0x` or
   * `0X` prefix introducing hexadecimal digits, or else decimal digits, up to
   * the first character that is not such a digit. None stands for NaN, the
   * answer when no digit is there.
   */
  function ParseInt(s: string): (r: Option<int>)
    ensures (forall i :: 0 <= i < |s| ==> IsWhitespace(s[i])) ==> r.None?
    ensures (exists i :: 0 <= i < |s| && !IsWhitespace(s[i])
                         && (forall j :: 0 <= j < i ==> IsWhitespace(s[j]))
                         && !IsDigit(s[i], 10) && s[i] != '-' && s[i] != '+') ==> r.None?
  {
    Signed(TrimStart(s))
  }

  /** What parseInt reads after the leading white space: an optional sign, then the magnitude. */
  function Signed(t: string): (r: Option<int>)
    ensures t == [] || (!IsDigit(t[0], 10) && t[0] != '-' && t[0] != '+') ==> r.None?
  {
    if t != [] && t[0] == '-' then
      match Magnitude(t[1..])
      case Some(m) => Some(-(m as int))
      case None => None
    else if t != [] && t[0] == '+' then Magnitude(t[1..])
    else Magnitude(t)
  }

  /** What parseInt reads after the sign: hexadecimal digits after `0x` or `0X`, otherwise decimal ones. */
  function Magnitude(u: string): (r: Option<nat>)
    ensures u == [] || !IsDigit(u[0], 10) ==> r.None?
  {
    var hex := |u| >= 2 && u[0] == '0' && (u[1] == 'x' || u[1] == 'X');
    var radix := if hex then 16 else 10;
    var digits := DigitPrefix(if hex then u[2..] else u, radix);
    if digits == [] then None else Some(Value(digits, radix))
  }

  /** The set count a sets text yields: parseInt's value, with NaN stored as 0. */
  function SetCount(text: string): int
  {
    match ParseInt(text)
    case Some(n) => n
    case None => 0
  }

  /** The digit character for `v`, lower-case beyond 9. */
  function DigitChar(v: nat): (c: char)
    requires v < 16
    ensures IsDigit(c, 16) && DigitValue(c) == v
    ensures v < 10 ==> IsDigit(c, 10)
  {
    if v < 10 then ('0' as int + v) as char else ('a' as int + v - 10) as char
  }

  /** `n` written in base `radix` without leading zeros. */
  function Numeral(n: nat, radix: nat): (d: string)
    requires radix == 10 || radix == 16
    ensures d != [] && forall i :: 0 <= i < |d| ==> IsDigit(d[i], radix)
    ensures |d| > 1 ==> d[0] != '0'
    ensures d[0] == '0' <==> n == 0
  {
    if n < radix then [DigitChar(n)] else Numeral(n / radix, radix) + [DigitChar(n % radix)]
  }

  /** An integer as a number field shows it: a minus sign for negatives, then decimal digits. */
  function Decimal(n: int): string
  {
    if n < 0 then "-" + Numeral(-n, 10) else Numeral(n, 10)
  }

  lemma {:induction false} ValueOfNumeral(n: nat, radix: nat)
    requires radix == 10 || radix == 16
    ensures Value(Numeral(n, radix), radix) == n
    decreases n
  {
    var d := Numeral(n, radix);
    if n >= radix {
      ValueOfNumeral(n / radix, radix);
      assert d[..|d| - 1] == Numeral(n / radix, radix);
    }
  }

  lemma {:induction false} DigitPrefixOfDigits(d: string, rest: string, radix: nat)
    requires forall i :: 0 <= i < |d| ==> IsDigit(d[i], radix)
    requires rest == [] || !IsDigit(rest[0], radix)
    ensures DigitPrefix(d + rest, radix) == d
  {
    if d != [] {
      assert (d + rest)[1..] == d[1..] + rest;
      DigitPrefixOfDigits(d[1..], rest, radix);
    } else {
      assert d + rest == rest;
    }
  }

  lemma {:induction false} TrimStartSkips(w: string, x: string)
    requires forall i :: 0 <= i < |w| ==> IsWhitespace(w[i])
    requires x == [] || !IsWhitespace(x[0])
    ensures TrimStart(w + x) == x
  {
    if w != [] {
      assert (w + x)[1..] == w[1..] + x;
      TrimStartSkips(w[1..], x);
    } else {
      assert w + x == x;
    }
  }

  /**
   * A text made of white space, an integer written as a number field shows
   * it, and anything that cannot continue the numeral reads back as that
   * integer.
   */
  lemma ParseIntReadsDecimal(w: string, n: int, rest: string)
    requires forall i :: 0 <= i < |w| ==> IsWhitespace(w[i])
    requires rest == [] || (!IsDigit(rest[0], 10) && (n != 0 || (rest[0] != 'x' && rest[0] != 'X')))
    ensures ParseInt(w + Decimal(n) + rest) == Some(n)
  {
    var t := Decimal(n) + rest;
    assert w + Decimal(n) + rest == w + t;
    assert t[0] == Decimal(n)[0];
    TrimStartSkips(w, t);
    SignedDecimal(n, rest);
  }

  lemma SignedDecimal(n: int, rest: string)
    requires rest == [] || (!IsDigit(rest[0], 10) && (n != 0 || (rest[0] != 'x' && rest[0] != 'X')))
    ensures Signed(Decimal(n) + rest) == Some(n)
  {
    if n < 0 {
      SignedNegative(-n, rest);
    } else {
      SignedUnsigned(n, rest);
    }
  }

  lemma SignedNegative(m: nat, rest: string)
    requires rest == [] || (!IsDigit(rest[0], 10) && (m != 0 || (rest[0] != 'x' && rest[0] != 'X')))
    ensures Signed("-" + Numeral(m, 10) + rest) == Some(-(m as int))
  {
    var u := Numeral(m, 10) + rest;
    var t := "-" + Numeral(m, 10) + rest;
    assert t == "-" + u && t[0] == '-' && t[1..] == u;
    MagnitudeOfDecimal(m, rest);
  }

  lemma SignedUnsigned(m: nat, rest: string)
    requires rest == [] || (!IsDigit(rest[0], 10) && (m != 0 || (rest[0] != 'x' && rest[0] != 'X')))
    ensures Signed(Numeral(m, 10) + rest) == Some(m)
  {
    var d := Numeral(m, 10);
    assert (d + rest)[0] == d[0] && IsDigit(d[0], 10);
    MagnitudeOfDecimal(m, rest);
  }

  lemma MagnitudeOfDecimal(m: nat, rest: string)
    requires rest == [] || (!IsDigit(rest[0], 10) && (m != 0 || (rest[0] != 'x' && rest[0] != 'X')))
    ensures Magnitude(Numeral(m, 10) + rest) == Some(m)
  {
    var d := Numeral(m, 10);
    var u := d + rest;
    assert u[0] == d[0];
    assert |d| == 1 && |u| >= 2 ==> u[1] == rest[0];
    assert |d| > 1 || m != 0 ==> u[0] != '0';
    DigitPrefixOfDigits(d, rest, 10);
    ValueOfNumeral(m, 10);
  }

  /** A hexadecimal numeral after `0x` or `0X` reads back as its value. */
  lemma ParseIntReadsHex(n: nat, upper: bool)
    ensures ParseInt((if upper then "0X" else "0x") + Numeral(n, 16)) == Some(n)
  {
    var s := (if upper then "0X" else "0x") + Numeral(n, 16);
    assert s[0] == '0' && !IsWhitespace(s[0]);
    assert TrimStart(s) == s;
    MagnitudeOfHex(n, upper);
    assert Signed(s) == Some(n);
  }

  lemma MagnitudeOfHex(n: nat, upper: bool)
    ensures Magnitude((if upper then "0X" else "0x") + Numeral(n, 16)) == Some(n)
  {
    var d := Numeral(n, 16);
    var s := (if upper then "0X" else "0x") + d;
    assert s[2..] == d;
    DigitPrefixOfDigits(d, [], 16);
    assert d + [] == d;
    ValueOfNumeral(n, 16);
  }

  // ---------------------------------------------------------------------
  // What a save does to the tables

  /** A request a save sends that the backend may reject; exercise requests carry the exercise's position. */
  datatype Request = PlanInsert | LookupExercise(index: nat) | CreateExercise(index: nat) | LinkExercise(index: nat)

  /** The requests the backend rejects, each with the message of its rejection. */
  type Faults = map<Request, string>

  function FaultOf(faults: Faults, req: Request): Option<string>
  {
    if req in faults then Some(faults[req]) else None
  }

  /** The messages with which requests about the exercise at `index` are rejected. */
  function RejectedAt(faults: Faults, index: nat): set<string>
  {
    set req | req in faults && !req.PlanInsert? && req.index == index :: faults[req]
  }

  /** The tables after a run of requests, and the message of the rejection that stopped it, if any. */
  datatype Run = Run(tables: Tables, failure: Option<string>)

  /** Links the exercise at position `index` to the plan once its catalogue id is known. */
  function Attach(t: Tables, link: LinkRow, index: nat, faults: Faults): Run
  {
    if LinkExercise(index) in faults then Run(t, Some(faults[LinkExercise(index)]))
    else Run(t.(links := t.links + [link]), None)
  }

  /** One turn of the save loop: look the exercise up, create it if absent, link it. */
  function SaveExercise(t: Tables, planId: nat, user: UserId, ex: Exercise, index: nat, faults: Faults): Run
  {
    var key := KeyOf(ex, user);
    if LookupExercise(index) in faults then Run(t, Some(faults[LookupExercise(index)]))
    else match Find(t.catalogue, key)
      case Some(id) => Attach(t, LinkRow(planId, id, ex.sets), index, faults)
      case None =>
        if CreateExercise(index) in faults then Run(t, Some(faults[CreateExercise(index)]))
        else Attach(t.(catalogue := t.catalogue + [key]), LinkRow(planId, |t.catalogue|, ex.sets), index, faults)
  }

  /** The save loop from position `i` on; the first rejection ends it. */
  function SaveFrom(t: Tables, planId: nat, user: UserId, exercises: seq<Exercise>, i: nat, faults: Faults): Run
    requires i <= |exercises|
    decreases |exercises| - i
  {
    if i == |exercises| then Run(t, None)
    else
      var step := SaveExercise(t, planId, user, exercises[i], i, faults);
      if step.failure.Some? then step else SaveFrom(step.tables, planId, user, exercises, i + 1, faults)
  }

  /** A whole save: who is signed in, the plan row, then the loop over the exercises. */
  function Save(t: Tables, auth: Auth, planName: string, exercises: seq<Exercise>, faults: Faults): Run
  {
    match auth
    case AuthError(message) => Run(t, Some(message))
    case SignedIn(user) =>
      if PlanInsert in faults then Run(t, Some(faults[PlanInsert]))
      else SaveFrom(t.(plans := t.plans + [PlanRow(planName, user)]), |t.plans|, user, exercises, 0, faults)
  }

  /**
   * `after` holds the links of `before` followed by one link per exercise of
   * exercises[from..to], in order, each to plan `planId` with that exercise's
   * set count and a catalogue row carrying that exercise's key; the catalogue
   * rows of `before` are kept.
   */
  ghost predicate Linked(links: seq<LinkRow>, catalogue: seq<CatalogueRow>, after: Tables, planId: nat,
                         user: UserId, exercises: seq<Exercise>, from: nat, to: nat)
  {
    && from <= to <= |exercises|
    && |after.links| == |links| + (to - from)
    && after.links[..|links|] == links
    && |catalogue| <= |after.catalogue|
    && after.catalogue[..|catalogue|] == catalogue
    && forall k :: from <= k < to ==> LinksTo(after, |links| + k - from, planId, exercises[k], user)
  }

  /** The link at position `p` joins plan `planId` to a catalogue row with the key of `ex`, with its set count. */
  ghost predicate LinksTo(t: Tables, p: int, planId: nat, ex: Exercise, user: UserId)
  {
    && 0 <= p < |t.links|
    && t.links[p].planId == planId
    && t.links[p].sets == ex.sets
    && t.links[p].exerciseId < |t.catalogue|
    && t.catalogue[t.links[p].exerciseId] == KeyOf(ex, user)
  }

  /**
   * The catalogue rows `after` adds to those of `before` are keys of
   * exercises in exercises[from..to], each different from every row before it.
   */
  ghost predicate Grown(catalogue: seq<CatalogueRow>, after: Tables, user: UserId,
                        exercises: seq<Exercise>, from: nat, to: nat)
  {
    && from <= to <= |exercises|
    && |catalogue| <= |after.catalogue|
    && after.catalogue[..|catalogue|] == catalogue
    && forall j :: |catalogue| <= j < |after.catalogue| ==>
         && after.catalogue[j] !in after.catalogue[..j]
         && exists k :: from <= k < to && after.catalogue[j] == KeyOf(exercises[k], user)
  }

  lemma LinkedTrans(a: Tables, b: Tables, c: Tables, planId: nat, user: UserId,
                    exercises: seq<Exercise>, i: nat, j: nat, k: nat)
    requires Linked(a.links, a.catalogue, b, planId, user, exercises, i, j)
    requires Linked(b.links, b.catalogue, c, planId, user, exercises, j, k)
    ensures Linked(a.links, a.catalogue, c, planId, user, exercises, i, k)
  {
  }

  lemma GrownTrans(a: Tables, b: Tables, c: Tables, user: UserId,
                   exercises: seq<Exercise>, i: nat, j: nat, k: nat)
    requires Grown(a.catalogue, b, user, exercises, i, j)
    requires Grown(b.catalogue, c, user, exercises, j, k)
    ensures Grown(a.catalogue, c, user, exercises, i, k)
  {
    assert c.catalogue[..|a.catalogue|] == c.catalogue[..|b.catalogue|][..|a.catalogue|];
    forall n | |a.catalogue| <= n < |c.catalogue|
      ensures c.catalogue[n] !in c.catalogue[..n]
      ensures exists m :: i <= m < k && c.catalogue[n] == KeyOf(exercises[m], user)
    {
      if n < |b.catalogue| {
        assert c.catalogue[n] == c.catalogue[..|b.catalogue|][n] == b.catalogue[n];
        assert c.catalogue[..n] == c.catalogue[..|b.catalogue|][..n] == b.catalogue[..n];
      }
    }
  }

  /** One turn of the loop links exercise `i`, or stops with the rejection of one of its requests. */
  lemma SaveExerciseStep(t: Tables, planId: nat, user: UserId, exercises: seq<Exercise>, i: nat, faults: Faults)
    requires i < |exercises|
    ensures var r := SaveExercise(t, planId, user, exercises[i], i, faults);
      && r.tables.plans == t.plans
      && Grown(t.catalogue, r.tables, user, exercises, i, i + 1)
      && (r.failure.None? ==> Linked(t.links, t.catalogue, r.tables, planId, user, exercises, i, i + 1))
      && (r.failure.Some? ==> Linked(t.links, t.catalogue, r.tables, planId, user, exercises, i, i)
                              && r.failure.value in RejectedAt(faults, i))
  {
  }

  /**
   * The loop from position `i` on links every remaining exercise in order, or
   * stops at some exercise `n` after linking exactly those before it; either
   * way the plans table is untouched and the catalogue only gains fresh keys.
   */
  lemma {:induction false} SaveFromSpec(t: Tables, planId: nat, user: UserId,
                                        exercises: seq<Exercise>, i: nat, faults: Faults)
    requires i <= |exercises|
    ensures var r := SaveFrom(t, planId, user, exercises, i, faults);
      && r.tables.plans == t.plans
      && (r.failure.None? ==>
            Linked(t.links, t.catalogue, r.tables, planId, user, exercises, i, |exercises|)
            && Grown(t.catalogue, r.tables, user, exercises, i, |exercises|))
      && (r.failure.Some? ==>
            exists n :: i <= n < |exercises|
                        && Linked(t.links, t.catalogue, r.tables, planId, user, exercises, i, n)
                        && Grown(t.catalogue, r.tables, user, exercises, i, n + 1)
                        && r.failure.value in RejectedAt(faults, n))
    decreases |exercises| - i
  {
    var r := SaveFrom(t, planId, user, exercises, i, faults);
    if i == |exercises| {
      assert t.links[..|t.links|] == t.links;
      assert t.catalogue[..|t.catalogue|] == t.catalogue;
      assert Linked(t.links, t.catalogue, r.tables, planId, user, exercises, i, |exercises|);
    } else {
      var step := SaveExercise(t, planId, user, exercises[i], i, faults);
      SaveExerciseStep(t, planId, user, exercises, i, faults);
      if step.failure.Some? {
        assert Linked(t.links, t.catalogue, r.tables, planId, user, exercises, i, i);
      } else {
        SaveFromSpec(step.tables, planId, user, exercises, i + 1, faults);
        if r.failure.None? {
          LinkedTrans(t, step.tables, r.tables, planId, user, exercises, i, i + 1, |exercises|);
          GrownTrans(t, step.tables, r.tables, user, exercises, i, i + 1, |exercises|);
        } else {
          var n :| i + 1 <= n < |exercises|
                   && Linked(step.tables.links, step.tables.catalogue, r.tables, planId, user, exercises, i + 1, n)
                   && Grown(step.tables.catalogue, r.tables, user, exercises, i + 1, n + 1)
                   && r.failure.value in RejectedAt(faults, n);
          LinkedTrans(t, step.tables, r.tables, planId, user, exercises, i, i + 1, n);
          GrownTrans(t, step.tables, r.tables, user, exercises, i, i + 1, n + 1);
        }
      }
    }
  }

  // ---------------------------------------------------------------------
  // Properties of a whole save

  /**
   * A save that succeeds adds one plan row named as the form says, then one
   * link per listed exercise, in list order, each carrying the new plan's id,
   * the exercise's set count and the id of a catalogue row with the
   * exercise's (name, type, user) key; existing rows are not changed and
   * every catalogue row it creates has a key not present before.
   */
  lemma SaveLinksEveryExercise(t: Tables, user: UserId, planName: string, exercises: seq<Exercise>, faults: Faults)
    requires Save(t, SignedIn(user), planName, exercises, faults).failure.None?
    ensures var after := Save(t, SignedIn(user), planName, exercises, faults).tables;
      && after.plans == t.plans + [PlanRow(planName, user)]
      && Linked(t.links, t.catalogue, after, |t.plans|, user, exercises, 0, |exercises|)
      && Grown(t.catalogue, after, user, exercises, 0, |exercises|)
  {
    var started := t.(plans := t.plans + [PlanRow(planName, user)]);
    assert Save(t, SignedIn(user), planName, exercises, faults) == SaveFrom(started, |t.plans|, user, exercises, 0, faults);
    SaveFromSpec(started, |t.plans|, user, exercises, 0, faults);
  }

  /** A save never puts a second row with an existing key into the catalogue. */
  lemma SaveKeepsKeysUnique(t: Tables, auth: Auth, planName: string, exercises: seq<Exercise>, faults: Faults)
    requires UniqueKeys(t.catalogue)
    ensures UniqueKeys(Save(t, auth, planName, exercises, faults).tables.catalogue)
  {
    var r := Save(t, auth, planName, exercises, faults);
    if auth.SignedIn? && PlanInsert !in faults {
      var started := t.(plans := t.plans + [PlanRow(planName, auth.id)]);
      SaveFromSpec(started, |t.plans|, auth.id, exercises, 0, faults);
      var c := r.tables.catalogue;
      forall i, j | 0 <= i < j < |c| ensures c[i] != c[j] {
        if j < |t.catalogue| {
          assert c[i] == c[..|t.catalogue|][i] && c[j] == c[..|t.catalogue|][j];
        } else {
          assert c[i] == c[..j][i];
        }
      }
    }
  }

  /**
   * An exercise whose key is already in the catalogue is linked to the
   * existing row; if every key is already there, the catalogue is unchanged.
   */
  lemma SaveReusesExisting(t: Tables, user: UserId, planName: string, exercises: seq<Exercise>, faults: Faults)
    requires UniqueKeys(t.catalogue)
    requires Save(t, SignedIn(user), planName, exercises, faults).failure.None?
    ensures var after := Save(t, SignedIn(user), planName, exercises, faults).tables;
      && |after.links| == |t.links| + |exercises|
      && (forall k, j :: 0 <= k < |exercises| && 0 <= j < |t.catalogue| && t.catalogue[j] == KeyOf(exercises[k], user)
            ==> after.links[|t.links| + k].exerciseId == j)
      && ((forall k :: 0 <= k < |exercises| ==> KeyOf(exercises[k], user) in t.catalogue)
            ==> after.catalogue == t.catalogue)
  {
    SaveLinksKnownKeys(t, user, planName, exercises, faults);
    if forall k :: 0 <= k < |exercises| ==> KeyOf(exercises[k], user) in t.catalogue {
      SaveAddsNoKnownKey(t, user, planName, exercises, faults);
    }
  }

  lemma SaveLinksKnownKeys(t: Tables, user: UserId, planName: string, exercises: seq<Exercise>, faults: Faults)
    requires UniqueKeys(t.catalogue)
    requires Save(t, SignedIn(user), planName, exercises, faults).failure.None?
    ensures var after := Save(t, SignedIn(user), planName, exercises, faults).tables;
      && |after.links| == |t.links| + |exercises|
      && forall k, j :: 0 <= k < |exercises| && 0 <= j < |t.catalogue| && t.catalogue[j] == KeyOf(exercises[k], user)
           ==> after.links[|t.links| + k].exerciseId == j
  {
    var after := Save(t, SignedIn(user), planName, exercises, faults).tables;
    SaveLinksEveryExercise(t, user, planName, exercises, faults);
    SaveKeepsKeysUnique(t, SignedIn(user), planName, exercises, faults);
    LinkedToExisting(t.links, t.catalogue, after, |t.plans|, user, exercises);
  }

  lemma SaveAddsNoKnownKey(t: Tables, user: UserId, planName: string, exercises: seq<Exercise>, faults: Faults)
    requires Save(t, SignedIn(user), planName, exercises, faults).failure.None?
    requires forall k :: 0 <= k < |exercises| ==> KeyOf(exercises[k], user) in t.catalogue
    ensures Save(t, SignedIn(user), planName, exercises, faults).tables.catalogue == t.catalogue
  {
    SaveLinksEveryExercise(t, user, planName, exercises, faults);
    NoRowAdded(t.catalogue, Save(t, SignedIn(user), planName, exercises, faults).tables, user, exercises);
  }

  lemma LinkedToExisting(links: seq<LinkRow>, catalogue: seq<CatalogueRow>, after: Tables, planId: nat,
                         user: UserId, exercises: seq<Exercise>)
    requires Linked(links, catalogue, after, planId, user, exercises, 0, |exercises|)
    requires UniqueKeys(after.catalogue)
    ensures forall k, j :: 0 <= k < |exercises| && 0 <= j < |catalogue| && catalogue[j] == KeyOf(exercises[k], user)
              ==> after.links[|links| + k].exerciseId == j
  {
    forall k, j | 0 <= k < |exercises| && 0 <= j < |catalogue| && catalogue[j] == KeyOf(exercises[k], user)
      ensures after.links[|links| + k].exerciseId == j
    {
      assert LinksTo(after, |links| + k, planId, exercises[k], user);
      assert after.catalogue[j] == after.catalogue[..|catalogue|][j];
    }
  }

  lemma NoRowAdded(catalogue: seq<CatalogueRow>, after: Tables, user: UserId, exercises: seq<Exercise>)
    requires Grown(catalogue, after, user, exercises, 0, |exercises|)
    requires forall k :: 0 <= k < |exercises| ==> KeyOf(exercises[k], user) in catalogue
    ensures after.catalogue == catalogue
  {
    if |after.catalogue| > |catalogue| {
      assert false;
    }
    assert after.catalogue == after.catalogue[..|catalogue|];
  }

  /**
   * A failed sign-in or a rejected plan insert leaves every table as it was;
   * a rejection in the loop stops it at some exercise `n`: exactly the
   * exercises before `n` are linked and no later exercise is looked at.
   */
  lemma SaveAbortsOnFailure(t: Tables, auth: Auth, planName: string, exercises: seq<Exercise>, faults: Faults)
    ensures var r := Save(t, auth, planName, exercises, faults);
      && (auth.AuthError? ==> r == Run(t, Some(auth.message)))
      && (auth.SignedIn? && PlanInsert in faults ==> r == Run(t, Some(faults[PlanInsert])))
      && (auth.SignedIn? && PlanInsert !in faults && r.failure.Some? ==>
            && r.tables.plans == t.plans + [PlanRow(planName, auth.id)]
            && exists n :: 0 <= n < |exercises|
                 && Linked(t.links, t.catalogue, r.tables, |t.plans|, auth.id, exercises, 0, n)
                 && Grown(t.catalogue, r.tables, auth.id, exercises, 0, n + 1)
                 && r.failure.value in RejectedAt(faults, n))
  {
    if auth.SignedIn? && PlanInsert !in faults {
      var started := t.(plans := t.plans + [PlanRow(planName, auth.id)]);
      SaveFromSpec(started, |t.plans|, auth.id, exercises, 0, faults);
    }
  }

  /** With a signed-in user and no rejected request, a save always succeeds. */
  lemma {:induction false} SaveFromSucceeds(t: Tables, planId: nat, user: UserId, exercises: seq<Exercise>, i: nat)
    requires i <= |exercises|
    ensures SaveFrom(t, planId, user, exercises, i, map[]).failure.None?
    decreases |exercises| - i
  {
    if i < |exercises| {
      var step := SaveExercise(t, planId, user, exercises[i], i, map[]);
      SaveFromSucceeds(step.tables, planId, user, exercises, i + 1);
    }
  }

  lemma SaveSucceedsWithoutFaults(t: Tables, user: UserId, planName: string, exercises: seq<Exercise>)
    ensures Save(t, SignedIn(user), planName, exercises, map[]).failure.None?
  {
    SaveFromSucceeds(t.(plans := t.plans + [PlanRow(planName, user)]), |t.plans|, user, exercises, 0);
  }

  /**
   * One turn of the save loop against the backend: looks the exercise's key
   * up, creates the catalogue row when the key is not found, then links the
   * row to the plan; stops at the first rejection and returns its message.
   */
  method LinkExerciseToPlan(db: Database, planId: nat, user: UserId, exercise: Exercise, index: nat, faults: Faults)
    returns (failure: Option<string>)
    modifies db
    ensures Run(db.Snapshot(), failure) == SaveExercise(old(db.Snapshot()), planId, user, exercise, index, faults)
  {
    var key := KeyOf(exercise, user);
    var existing := db.SelectExercise(key, FaultOf(faults, LookupExercise(index)));
    var exerciseId: nat;
    match existing {
      case LookupFailed(message) =>
        return Some(message);
      case Found(id) =>
        exerciseId := id;
      case NotFound =>
        var created := db.InsertExercise(key, FaultOf(faults, CreateExercise(index)));
        if created.Err? {
          return Some(created.message);
        }
        exerciseId := created.value;
    }
    failure := db.InsertLinks([LinkRow(planId, exerciseId, exercise.sets)], FaultOf(faults, LinkExercise(index)));
  }

  // ---------------------------------------------------------------------
  // The editor screen

  class CreatePlanForm {
    var planName: string
    var exercises: seq<Exercise>
    var exerciseName: string
    var exerciseType: ExerciseType
    var sets: string
    var error: Option<string>
    /** The route the screen navigated to, if it did. */
    var navigation: Option<string>

    constructor ()
      ensures planName == "" && exercises == [] && exerciseName == "" && exerciseType == Dumbbell
      ensures sets == "" && error == None && navigation == None
    {
      planName, exercises, exerciseName, exerciseType, sets := "", [], "", Dumbbell, "";
      error, navigation := None, None;
    }

    /**
     * With a name and a sets text entered, appends the exercise and clears
     * both fields, keeping the selected type; otherwise changes nothing.
     */
    method AddExercise()
      modifies this`exercises, this`exerciseName, this`sets
      ensures old(exerciseName) != "" && old(sets) != "" ==>
                && exercises == old(exercises) + [Exercise(old(exerciseName), exerciseType, SetCount(old(sets)))]
                && exerciseName == "" && sets == ""
      ensures old(exerciseName) == "" || old(sets) == "" ==>
                exercises == old(exercises) && exerciseName == old(exerciseName) && sets == old(sets)
    {
      if exerciseName != "" && sets != "" {
        exercises := exercises + [Exercise(exerciseName, exerciseType, SetCount(sets))];
        exerciseName := "";
        sets := "";
      }
    }

    /** Drops the entry at `index`, keeping the others in order; any other index changes nothing. */
    method RemoveExercise(index: int)
      modifies this`exercises
      ensures 0 <= index < |old(exercises)| ==> exercises == old(exercises)[..index] + old(exercises)[index + 1..]
      ensures !(0 <= index < |old(exercises)|) ==> exercises == old(exercises)
    {
      exercises := Without(exercises, index);
    }

    /**
     * Saves the plan: asks who is signed in, inserts the plan row, then for
     * each exercise in order looks its key up, creates the catalogue row if
     * the key is absent, and inserts the link. The first rejection records
     * its message and ends the save; only a save without one navigates to
     * the plan list.
     */
    method SavePlan(db: Database, auth: Auth, faults: Faults)
      modifies this`error, this`navigation, db
      ensures var r := Save(old(db.Snapshot()), auth, planName, exercises, faults);
        && db.Snapshot() == r.tables
        && (r.failure.None? ==> navigation == Some("/plans") && error == old(error))
        && (r.failure.Some? ==> navigation == old(navigation) && error == r.failure)
    {
      ghost var initial := db.Snapshot();
      if auth.AuthError? {
        error := Some(auth.message);
        return;
      }
      var user := auth.id;
      var planResult := db.InsertPlan(PlanRow(planName, user), FaultOf(faults, PlanInsert));
      if planResult.Err? {
        error := Some(planResult.message);
        return;
      }
      var planId := planResult.value;
      ghost var goal := Save(initial, auth, planName, exercises, faults);
      assert goal == SaveFrom(db.Snapshot(), planId, user, exercises, 0, faults);
      var i := 0;
      while i < |exercises|
        invariant 0 <= i <= |exercises|
        invariant error == old(error) && navigation == old(navigation)
        invariant SaveFrom(db.Snapshot(), planId, user, exercises, i, faults) == goal
      {
        ghost var step := SaveExercise(db.Snapshot(), planId, user, exercises[i], i, faults);
        assert step.failure.Some? ==> step == goal;
        var failure := LinkExerciseToPlan(db, planId, user, exercises[i], i, faults);
        if failure.Some? {
          error := failure;
          return;
        }
        i := i + 1;
      }
      navigation := Some("/plans");
    }
  }
}
