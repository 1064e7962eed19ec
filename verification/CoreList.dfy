/**
 The core-list parser of main.c: it splits a NUL-terminated string at its commas in
 place, by overwriting them, and converts each piece.
 */
module CoreList {
  import opened MachineWords

  const ULONG_MAX: nat := 0xFFFF_FFFF_FFFF_FFFF

  predicate IsDigit(c: char) {
    '0' <= c <= '9'
  }

  predicate Digits(s: string) {
    forall i :: 0 <= i < |s| ==> IsDigit(s[i])
  }

  function DigitValue(c: char): nat
    requires IsDigit(c)
  {
    c as int - '0' as int
  }

  function Value(s: string): nat
    requires Digits(s)
  {
    if s == [] then 0 else 10 * Value(s[..|s| - 1]) + DigitValue(s[|s| - 1])
  }

  function Saturated(v: nat): nat {
    if v > ULONG_MAX then ULONG_MAX else v
  }

  function Truncated(v: nat): nat {
    v % WORD32
  }

  /** strtoul on an LP64 platform, stored into a uint32_t. */
  function Entry(s: string): nat
    requires Digits(s)
  {
    Truncated(Saturated(Value(s)))
  }

  /** The conversion keeps exactly the numbers that fit into 32 bits. */
  lemma EntryIsValueIff(s: string)
    requires Digits(s)
    ensures Entry(s) < WORD32
    ensures Entry(s) == Value(s) <==> Value(s) < WORD32
  {
  }

  // ---- the language -------------------------------------------------------------------

  /** The number of digits at the front of s. */
  function DigitRun(s: string): (d: nat)
    ensures d <= |s| && Digits(s[..d])
    ensures d < |s| ==> !IsDigit(s[d])
  {
    if s == [] || !IsDigit(s[0]) then 0
    else
      var d := DigitRun(s[1..]);
      assert s[..d + 1] == [s[0]] + s[1..][..d];
      d + 1
  }

  lemma FrontDigits(s: string, d: nat)
    requires d <= |s| && Digits(s[..d])
    ensures forall i :: 0 <= i < d ==> IsDigit(s[i])
  {
    assert forall i :: 0 <= i < d ==> s[..d][i] == s[i];
  }

  lemma DigitRunUnique(s: string, d: nat)
    requires d <= |s| && Digits(s[..d])
    requires d < |s| ==> !IsDigit(s[d])
    ensures DigitRun(s) == d
  {
    FrontDigits(s, d);
    FrontDigits(s, DigitRun(s));
  }

  datatype Scanned = Rejected | Accepted(entries: seq<nat>)

  function Prepend(pre: seq<nat>, rest: Scanned): Scanned {
    match rest
    case Rejected => Rejected
    case Accepted(entries) => Accepted(pre + entries)
  }

  function After(s: string, d: nat): string {
    if d < |s| then s[d + 1..] else []
  }

  /** What is still to be read, one field at a time; nothing left is accepted. */
  function Scan(s: string): Scanned
    decreases |s|
  {
    if s == [] then Accepted([])
    else
      var d := DigitRun(s);
      if d < |s| && s[d] != ',' then Rejected
      else if d == 0 then Rejected
      else Prepend([Entry(s[..d])], Scan(After(s, d)))
  }

  function Parse(s: string): Scanned {
    if s == [] || !IsDigit(s[0]) then Rejected else Scan(s)
  }

  function Commas(s: string): nat {
    if s == [] then 0 else (if s[0] == ',' then 1 else 0) + Commas(s[1..])
  }

  lemma {:induction false} CommasConcat(s: string, t: string)
    ensures Commas(s + t) == Commas(s) + Commas(t)
  {
    if s == [] {
      assert s + t == t;
    } else {
      CommasConcat(s[1..], t);
      assert (s + t)[1..] == s[1..] + t;
    }
  }

  lemma {:induction false} NoCommas(s: string)
    requires Digits(s)
    ensures Commas(s) == 0
  {
    if s != [] {
      NoCommas(s[1..]);
    }
  }

  lemma CommasAfter(s: string, d: nat)
    requires d <= |s| && Digits(s[..d])
    requires d < |s| ==> s[d] == ','
    ensures Commas(s) == if d < |s| then 1 + Commas(After(s, d)) else 0
  {
    NoCommas(s[..d]);
    CommasConcat(s[..d], s[d..]);
    assert s == s[..d] + s[d..];
    if d < |s| {
      assert s[d..][1..] == After(s, d);
    }
  }

  // ---- the parser in place --------------------------------------------------------------

  datatype Outcome = Exited | OutOfMemory | Done

  /** cores holds the string s, its NUL, and nothing else. */
  ghost predicate CString(cores: array<char>, s: string)
    reads cores
  {
    cores[..] == s + ['\0'] && '\0' !in s
  }

  /** The number that starts at current, up to the first byte that is no digit. */
  method StrToUl(cores: array<char>, current: nat, ghost end: nat) returns (v: nat)
    requires current <= end < cores.Length
    requires Digits(cores[current..end]) && !IsDigit(cores[end])
    ensures v == Saturated(Value(cores[current..end]))
  {
    v := 0;
    var i := current;
    forall k | current <= k < end ensures IsDigit(cores[k]) {
      assert cores[current..end][k - current] == cores[k];
    }
    while IsDigit(cores[i])
      invariant current <= i <= end
      invariant Digits(cores[current..i]) && v == Saturated(Value(cores[current..i]))
      decreases end - i
    {
      assert cores[current..i + 1][..i - current] == cores[current..i];
      v := Saturated(10 * v + DigitValue(cores[i]));
      i := i + 1;
    }
  }

  method CountCores(cores: array<char>, ghost s: string) returns (corecount: nat)
    requires CString(cores, s)
    ensures corecount == 1 + Commas(s)
  {
    corecount := 1;
    var current := 0;
    assert forall k :: 0 <= k <= |s| ==> cores[k] == cores[..][k];
    while cores[current] != '\0'
      invariant current <= |s| && corecount + Commas(s[current..]) == 1 + Commas(s)
      invariant s[0..] == s
      decreases |s| - current
    {
      assert s[current..][1..] == s[current + 1..];
      if cores[current] == ',' {
        corecount := corecount + 1;
      }
      current := current + 1;
    }
  }

  /** The inner loop: past the digits that start at current. */
  method Digit(cores: array<char>, current: nat, ghost s: string) returns (lookahead: nat)
    requires current < |s| && cores.Length == |s| + 1 && '\0' !in s
    requires cores[current..] == s[current..] + ['\0']
    ensures lookahead == current + DigitRun(s[current..])
    ensures cores[lookahead] == if lookahead < |s| then s[lookahead] else '\0'
  {
    lookahead := current;
    while IsDigit(cores[lookahead]) && cores[lookahead] != '\0'
      invariant current <= lookahead <= |s|
      invariant Digits(s[current..][..lookahead - current])
      decreases |s| - lookahead
    {
      assert cores[lookahead] == cores[current..][lookahead - current];
      lookahead := lookahead + 1;
    }
    assert cores[lookahead] == cores[current..][lookahead - current];
    DigitRunUnique(s[current..], lookahead - current);
  }

  /**
   main.c:41-101. Every access to the string and to the list is in bounds for every
   string, and the loop ends. The outcome is that of Parse; when the list is accepted its
   entries come first, the count is one more than the number of commas, and the commas
   have become terminators.
   */
  method ParseCoresList(cores: array<char>, coreslen: nat, memory: bool, ghost s: string)
    returns (outcome: Outcome, coreslist: array?<nat>, ncores: nat)
    requires CString(cores, s) && coreslen == |s|
    modifies cores
    ensures outcome == Exited <==>
      s == [] || !IsDigit(s[0]) || (memory && Parse(s).Rejected?)
    ensures outcome == Done <==> memory && Parse(s).Accepted?
    ensures outcome == Done ==>
      && coreslist != null && coreslist.Length == 1 + Commas(s)
      && ncores == Truncated(coreslist.Length)
      && Parse(s).entries <= coreslist[..]
      && forall k :: 0 <= k < |s| ==> cores[k] == if s[k] == ',' then '\0' else s[k]
    ensures outcome != Done ==> coreslist == null && ncores == 0
  {
    coreslist, ncores := null, 0;
    if coreslen == 0 {
      return Exited, null, 0;
    }
    assert cores[0] == cores[..][0];
    if !IsDigit(cores[0]) {
      return Exited, null, 0;
    }
    var corecount := CountCores(cores, s);
    if !memory {
      return OutOfMemory, null, 0;
    }
    var list := new nat[corecount];
    var ok := ReadFields(cores, list, coreslen, s);
    if !ok {
      return Exited, null, 0;
    }
    return Done, list, Truncated(corecount);
  }

  /** The loop of main.c:73-93. */
  method ReadFields(cores: array<char>, list: array<nat>, coreslen: nat, ghost s: string) returns (ok: bool)
    requires CString(cores, s) && coreslen == |s| && list.Length == 1 + Commas(s)
    modifies cores, list
    ensures ok <==> Scan(s).Accepted?
    ensures ok ==> Scan(s).entries <= list[..] && Replaced(cores[..], s, |s|)
  {
    var current, idx := 0, 0;
    AtStart(cores[..], list[..], s);
    while current < coreslen
      invariant InProgress(cores[..], list[..], s, current, idx)
      decreases |s| + 1 - current
    {
      ok, current := ReadField(cores, list, s, current, idx);
      if !ok {
        return;
      }
      idx := idx + 1;
    }
    ok := true;
    AllRead(cores[..], list[..], s, current, idx);
  }

  /** One iteration of the loop. */
  method ReadField(cores: array<char>, list: array<nat>, ghost s: string, current: nat, idx: nat)
    returns (ok: bool, next: nat)
    requires InProgress(cores[..], list[..], s, current, idx) && current < |s|
    modifies cores, list
    ensures !ok ==> Scan(s).Rejected?
    ensures ok ==> current < next && InProgress(cores[..], list[..], s, next, idx + 1)
  {
    var lookahead;
    ok, lookahead := FieldEnd(cores, current, list[..], s, idx);
    if !ok {
      return false, current;
    }
    StoreField(cores, list, s, current, lookahead, idx);
    next := lookahead + 1;
  }

  lemma AtStart(buf: string, list: seq<nat>, s: string)
    requires buf == s + ['\0'] && '\0' !in s && |list| == 1 + Commas(s)
    ensures InProgress(buf, list, s, 0, 0)
  {
    assert s[0..] == s && list[..0] == [];
    PrependNothing(Scan(s));
  }

  lemma AllRead(buf: string, list: seq<nat>, s: string, current: nat, idx: nat)
    requires InProgress(buf, list, s, current, idx) && current >= |s|
    ensures Scan(s).Accepted? && Scan(s).entries <= list && Replaced(buf, s, |s|)
  {
    assert Rest(s, current) == [];
    assert list[..idx] + [] == list[..idx];
  }

  lemma PrependNothing(rest: Scanned)
    ensures Prepend([], rest) == rest
  {
    if rest.Accepted? {
      assert [] + rest.entries == rest.entries;
    }
  }

  /** The invariant of the loop, main.c:73-93, on the contents of the buffer and of the list. */
  ghost predicate InProgress(buf: string, list: seq<nat>, s: string, current: nat, idx: nat) {
    && current <= |s| + 1 && '\0' !in s
    && |list| == 1 + Commas(s) && idx + Left(s, current) == |list|
    && Scan(s) == Prepend(list[..idx], Scan(Rest(s, current)))
    && Replaced(buf, s, current)
  }

  /** main.c:74-87: the end of the field at current, or the finding that there is no field. */
  method FieldEnd(cores: array<char>, current: nat, ghost list: seq<nat>, ghost s: string, ghost idx: nat)
    returns (ok: bool, lookahead: nat)
    requires InProgress(cores[..], list, s, current, idx) && current < |s|
    ensures !ok ==> Scan(s).Rejected?
    ensures ok ==> current < lookahead <= |s| && lookahead == current + DigitRun(s[current..])
    ensures ok && lookahead < |s| ==> s[lookahead] == ','
  {
    assert cores[current..] == s[current..] + ['\0'];
    lookahead := Digit(cores, current, s);
    ok := (cores[lookahead] == '\0' || cores[lookahead] == ',') && lookahead != current;
    if !ok {
      NoField(s, current, lookahead);
    }
  }

  /** main.c:89-95: end the field with a NUL and store its number. */
  method StoreField(cores: array<char>, list: array<nat>, ghost s: string, current: nat, lookahead: nat, idx: nat)
    requires InProgress(cores[..], list[..], s, current, idx)
    requires current < lookahead <= |s| && lookahead == current + DigitRun(s[current..])
    requires lookahead < |s| ==> s[lookahead] == ','
    modifies cores, list
    ensures InProgress(cores[..], list[..], s, lookahead + 1, idx + 1)
  {
    FieldIsDone(cores[..], list[..], s, current, lookahead, idx);
    ghost var buf := cores[..][lookahead := '\0'];
    ghost var entries := list[..][idx := Entry(s[current..lookahead])];
    cores[lookahead] := '\0';
    assert cores[..] == buf;
    assert cores[current..lookahead] == buf[current..lookahead];
    var cid := StrToUl(cores, current, lookahead);
    list[idx] := Truncated(cid);
    assert cores[..] == buf && list[..] == entries;
  }

  /** What storing one field does to the invariant. */
  lemma FieldIsDone(buf: string, list: seq<nat>, s: string, current: nat, lookahead: nat, idx: nat)
    requires InProgress(buf, list, s, current, idx)
    requires current < lookahead <= |s| && lookahead == current + DigitRun(s[current..])
    requires lookahead < |s| ==> s[lookahead] == ','
    ensures Digits(s[current..lookahead]) && idx < |list| && |buf| == |s| + 1
    ensures
      var buf' := buf[lookahead := '\0'];
      && buf'[current..lookahead] == s[current..lookahead] && !IsDigit(buf'[lookahead])
      && InProgress(buf', list[idx := Entry(s[current..lookahead])], s, lookahead + 1, idx + 1)
  {
    OneField(s, current, lookahead);
    FieldInBuffer(buf, buf[lookahead := '\0'], s, current, lookahead);
    var entry := Entry(s[current..lookahead]);
    PrependTwice(list[..idx], [entry], Scan(Rest(s, lookahead + 1)));
    assert list[idx := entry][..idx + 1] == list[..idx] + [entry];
  }

  function Rest(s: string, current: nat): string {
    if current <= |s| then s[current..] else []
  }

  /** The slots of the list that are not written yet. */
  function Left(s: string, current: nat): nat {
    if current <= |s| then 1 + Commas(s[current..]) else 0
  }

  ghost predicate Replaced(buf: string, s: string, current: nat) {
    && |buf| == |s| + 1 && buf[|s|] == '\0'
    && forall k :: 0 <= k < |s| ==> buf[k] == if k < current && s[k] == ',' then '\0' else s[k]
  }

  lemma PrependTwice(a: seq<nat>, b: seq<nat>, rest: Scanned)
    ensures Prepend(a, Prepend(b, rest)) == Prepend(a + b, rest)
  {
    if rest.Accepted? {
      assert a + (b + rest.entries) == a + b + rest.entries;
    }
  }

  /** One iteration consumes one field of the string. */
  lemma OneField(s: string, current: nat, lookahead: nat)
    requires current < lookahead <= |s| && lookahead == current + DigitRun(s[current..])
    requires lookahead < |s| ==> s[lookahead] == ','
    ensures Digits(s[current..lookahead])
    ensures Scan(Rest(s, current)) == Prepend([Entry(s[current..lookahead])], Scan(Rest(s, lookahead + 1)))
    ensures Left(s, current) == 1 + Left(s, lookahead + 1)
  {
    var d := lookahead - current;
    assert s[current..][..d] == s[current..lookahead];
    assert After(s[current..], d) == Rest(s, lookahead + 1);
    CommasAfter(s[current..], d);
  }

  lemma NoField(s: string, current: nat, lookahead: nat)
    requires current < |s| && lookahead == current + DigitRun(s[current..])
    requires lookahead == current || (lookahead < |s| && s[lookahead] != ',')
    ensures Scan(Rest(s, current)).Rejected?
  {
  }

  /** Ending the field with a NUL leaves its digits, and what follows, in place. */
  lemma FieldInBuffer(before: string, buf: string, s: string, current: nat, lookahead: nat)
    requires current < lookahead <= |s| && Digits(s[current..lookahead])
    requires lookahead < |s| ==> s[lookahead] == ','
    requires Replaced(before, s, current) && buf == before[lookahead := '\0']
    ensures buf[current..lookahead] == s[current..lookahead] && !IsDigit(buf[lookahead])
    ensures Replaced(buf, s, lookahead + 1)
  {
    forall k | current <= k < lookahead ensures IsDigit(s[k]) {
      assert s[k] == s[current..lookahead][k - current];
    }
  }

  // ---- what is accepted, and what comes of it ----------------------------------------

  /** A digit, or a comma right behind a digit. */
  predicate Fits(s: string, i: nat)
    requires i < |s|
  {
    IsDigit(s[i]) || (s[i] == ',' && i > 0 && IsDigit(s[i - 1]))
  }

  /** Digits and commas only, and each comma right behind a digit. */
  predicate WellFormed(s: string) {
    forall i :: 0 <= i < |s| ==> Fits(s, i)
  }

  lemma {:induction false} ScanAcceptsIff(s: string)
    ensures Scan(s).Accepted? <==> WellFormed(s)
  {
    if s != [] {
      var d := DigitRun(s);
      FrontDigits(s, d);
      if d < |s| {
        ScanAcceptsIff(After(s, d));
        assert Fits(s, d) <==> s[d] == ',' && d > 0;
        if Fits(s, d) {
          SplitWellFormed(s, d);
        }
      }
    }
  }

  lemma SplitWellFormed(s: string, d: nat)
    requires 0 < d < |s| && s[d] == ','
    requires forall i :: 0 <= i < d ==> IsDigit(s[i])
    ensures WellFormed(s) <==> WellFormed(s[d + 1..])
  {
    var rest := s[d + 1..];
    forall i | 0 <= i < |rest| ensures Fits(rest, i) <==> Fits(s, d + 1 + i) {
      assert rest[i] == s[d + 1 + i];
    }
    if WellFormed(rest) {
      forall i | d < i < |s| ensures Fits(s, i) {
        assert Fits(rest, i - d - 1);
      }
    }
  }

  lemma AcceptedIff(s: string)
    ensures Parse(s).Accepted? <==> s != [] && WellFormed(s)
  {
    ScanAcceptsIff(s);
  }

  lemma {:induction false} EntriesAndCommas(s: string)
    requires Scan(s).Accepted? && s != []
    ensures |Scan(s).entries| == Commas(s) + if s[|s| - 1] == ',' then 0 else 1
  {
    var d := DigitRun(s);
    CommasAfter(s, d);
    if d < |s| {
      var rest := After(s, d);
      if rest != [] {
        EntriesAndCommas(rest);
        assert rest[|rest| - 1] == s[|s| - 1];
      } else {
        assert s[|s| - 1] == ',';
      }
    } else {
      assert s[..d][|s| - 1] == s[|s| - 1];
    }
  }

  /** The returned count is right exactly when the string does not end in a comma. */
  lemma CountIsRightIff(s: string)
    requires Parse(s).Accepted?
    ensures |Parse(s).entries| == 1 + Commas(s) <==> s[|s| - 1] != ','
    ensures s[|s| - 1] == ',' ==> |Parse(s).entries| == Commas(s)
  {
    EntriesAndCommas(s);
  }

  // ---- round trip -----------------------------------------------------------------------

  function DigitChar(d: nat): (c: char)
    requires d < 10
    ensures IsDigit(c) && DigitValue(c) == d
  {
    '0' + d as char
  }

  /** The decimal form of v, without leading zeros. */
  function Decimal(v: nat): (s: string)
    ensures s != [] && Digits(s)
  {
    if v < 10 then [DigitChar(v)] else Decimal(v / 10) + [DigitChar(v % 10)]
  }

  lemma {:induction false} ValueOfDecimal(v: nat)
    ensures Value(Decimal(v)) == v
  {
    if v >= 10 {
      ValueOfDecimal(v / 10);
      assert Decimal(v)[..|Decimal(v)| - 1] == Decimal(v / 10);
    }
  }

  lemma ScanField(field: string, rest: string)
    requires field != [] && Digits(field)
    ensures Scan(field) == Accepted([Entry(field)])
    ensures Scan(field + [','] + rest) == Prepend([Entry(field)], Scan(rest))
  {
    DigitRunUnique(field, |field|);
    assert field[..|field|] == field;
    var s := field + [','] + rest;
    assert s[..|field|] == field && s[|field|] == ',';
    DigitRunUnique(s, |field|);
    assert After(s, |field|) == rest;
  }

  /** Non-empty runs of digits. */
  ghost predicate Fields(fields: seq<string>) {
    fields != [] && forall i :: 0 <= i < |fields| ==> fields[i] != [] && Digits(fields[i])
  }

  function Join(fields: seq<string>): string
    requires fields != []
  {
    if |fields| == 1 then fields[0] else fields[0] + [','] + Join(fields[1..])
  }

  function Tail(trailing: bool): string {
    if trailing then [','] else []
  }

  ghost function Entries(fields: seq<string>): seq<nat>
    requires Fields(fields)
  {
    seq(|fields|, i requires 0 <= i < |fields| => Entry(fields[i]))
  }

  lemma JoinStep(field: string, rest: seq<string>, tail: string)
    requires field != [] && Digits(field) && Fields(rest)
    ensures Fields([field] + rest)
    ensures Join([field] + rest) + tail == field + [','] + (Join(rest) + tail)
    ensures Entries([field] + rest) == [Entry(field)] + Entries(rest)
  {
    var fields := [field] + rest;
    assert fields[0] == field && fields[1..] == rest;
    forall i | 0 <= i < |rest| ensures fields[i + 1] == rest[i] {
    }
  }

  lemma {:induction false} ScanOfJoin(fields: seq<string>, trailing: bool)
    requires Fields(fields)
    ensures Scan(Join(fields) + Tail(trailing)) == Accepted(Entries(fields))
    decreases |fields|
  {
    var field, rest := fields[0], fields[1..];
    if rest == [] {
      ScanField(field, []);
      assert field + [','] + [] == field + [','] && field + [] == field;
      assert Entries(fields) == [Entry(field)];
    } else {
      ScanOfJoin(rest, trailing);
      ScanField(field, Join(rest) + Tail(trailing));
      JoinStep(field, rest, Tail(trailing));
      assert [field] + rest == fields;
    }
  }

  lemma CommasJoined(field: string, rest: string)
    requires Digits(field)
    ensures Commas(field + [','] + rest) == 1 + Commas(rest)
  {
    NoCommas(field);
    CommasConcat(field + [','], rest);
    CommasConcat(field, [',']);
  }

  lemma {:induction false} CommasOfJoin(fields: seq<string>)
    requires Fields(fields)
    ensures 1 + Commas(Join(fields)) == |fields|
    decreases |fields|
  {
    NoCommas(fields[0]);
    if |fields| > 1 {
      CommasOfJoin(fields[1..]);
      CommasJoined(fields[0], Join(fields[1..]));
    }
  }

  /**
   Numbers of any length and with any leading zeros, joined by commas, are read one by one,
   with one comma more or less at the end.
   */
  lemma FieldsRead(fields: seq<string>, trailing: bool)
    requires Fields(fields)
    ensures Parse(Join(fields) + Tail(trailing)) == Accepted(Entries(fields))
    ensures Commas(Join(fields) + Tail(trailing)) == |fields| - if trailing then 0 else 1
  {
    ScanOfJoin(fields, trailing);
    CommasOfJoin(fields);
    CommasConcat(Join(fields), Tail(trailing));
    assert (Join(fields) + Tail(trailing))[0] == fields[0][0];
  }

  /** What is accepted begins with a field, and is over or goes on behind a comma. */
  lemma FirstField(s: string)
    requires Scan(s).Accepted? && s != []
    ensures var d := DigitRun(s); d > 0 && (d < |s| ==> s[d] == ',' && Scan(After(s, d)).Accepted?)
  {
  }

  lemma SplitAtComma(s: string, d: nat)
    requires d < |s| && s[d] == ','
    ensures s == s[..d] + [','] + s[d + 1..]
  {
  }

  /** Every string that is accepted has this form. */
  lemma {:induction false} AcceptedIsJoin(s: string) returns (fields: seq<string>, trailing: bool)
    requires Scan(s).Accepted? && s != []
    ensures Fields(fields) && s == Join(fields) + Tail(trailing)
    decreases |s|
  {
    var d := DigitRun(s);
    FirstField(s);
    if d < |s| {
      SplitAtComma(s, d);
    }
    if d + 1 < |s| {
      fields, trailing := AcceptedIsJoin(s[d + 1..]);
      JoinStep(s[..d], fields, Tail(trailing));
      fields := [s[..d]] + fields;
    } else {
      fields, trailing := [s[..d]], d < |s|;
    }
  }

  // ---- decimal numbers ------------------------------------------------------------------

  function Pow10(n: nat): nat {
    if n == 0 then 1 else 10 * Pow10(n - 1)
  }

  /** Numbers are read in decimal notation: the digits in front count by the power of ten of those behind. */
  lemma {:induction false} ValueConcat(s: string, t: string)
    requires Digits(s) && Digits(t)
    ensures Digits(s + t) && Value(s + t) == Value(s) * Pow10(|t|) + Value(t)
  {
    if t == [] {
      assert s + t == s;
    } else {
      var n := |t| - 1;
      ValueConcat(s, t[..n]);
      assert (s + t)[..|s| + n] == s + t[..n];
      TimesTen(Value(s), Pow10(n));
    }
  }

  lemma TimesTen(v: nat, p: nat)
    ensures v * (10 * p) == 10 * (v * p)
  {
  }

  lemma ValueOfDigit(c: char)
    requires IsDigit(c)
    ensures Digits([c]) && Value([c]) == c as int - 48 && Value([]) == 0
  {
    assert [c][..0] == [];
  }

  /** The entry of a number: its value modulo 2^32, and the largest 32-bit number from 2^64 on. */
  lemma EntryIs(s: string)
    requires Digits(s)
    ensures Entry(s) ==
      if Value(s) < 0x1_0000_0000_0000_0000 then Value(s) % 0x1_0000_0000 else 0xFFFF_FFFF
  {
  }

  ghost predicate Words(list: seq<nat>) {
    forall i :: 0 <= i < |list| ==> list[i] < WORD32
  }

  function Decimals(list: seq<nat>): (fields: seq<string>)
    requires list != []
    ensures Fields(fields)
  {
    seq(|list|, i requires 0 <= i < |list| => Decimal(list[i]))
  }

  /** The decimal forms of a list, joined by commas. */
  function Render(list: seq<nat>): string
    requires list != []
  {
    Join(Decimals(list))
  }

  lemma EntriesOfDecimals(list: seq<nat>)
    requires list != [] && Words(list)
    ensures Entries(Decimals(list)) == list
  {
    forall i | 0 <= i < |list| ensures Entry(Decimal(list[i])) == list[i] {
      ValueOfDecimal(list[i]);
      EntryIsValueIff(Decimal(list[i]));
    }
  }

  /** Any list of 32-bit numbers is read back from its comma-joined form, with its length. */
  lemma RoundTrip(list: seq<nat>)
    requires list != [] && Words(list)
    ensures Parse(Render(list)) == Accepted(list)
    ensures 1 + Commas(Render(list)) == |list|
  {
    FieldsRead(Decimals(list), false);
    EntriesOfDecimals(list);
    assert Render(list) + Tail(false) == Render(list);
  }

  /** With a comma appended, every such list is still accepted, and its count is one too large. */
  lemma TrailingComma(list: seq<nat>)
    requires list != [] && Words(list)
    ensures Parse(Render(list) + [',']) == Accepted(list)
    ensures 1 + Commas(Render(list) + [',']) == |list| + 1
  {
    FieldsRead(Decimals(list), true);
    EntriesOfDecimals(list);
  }
}
