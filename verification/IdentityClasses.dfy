/** Identity classes: a ceiling on what a kind of identity may ever do, and who is assigned which. */
module IdentityClasses {
  import opened Wrappers
  import opened Text

  // ---------------------------------------------------------------------------
  // Enrollment modes
  // ---------------------------------------------------------------------------

  datatype Mode = Tofu | Attested | Verified

  function Severity(m: Mode): nat {
    match m
    case Tofu => 1
    case Attested => 2
    case Verified => 3
  }

  predicate Satisfies(m: Mode, minimum: Mode) {
    Severity(m) >= Severity(minimum)
  }

  /** The order of the modes: verified, then attested, then pinned on first use. */
  predicate AtLeast(m: Mode, minimum: Mode) {
    minimum.Tofu? || (minimum.Attested? && !m.Tofu?) || m.Verified?
  }

  lemma SatisfiesIsAtLeast(m: Mode, minimum: Mode)
    ensures Satisfies(m, minimum) <==> AtLeast(m, minimum)
  {
  }

  // ---------------------------------------------------------------------------
  // Patterns
  // ---------------------------------------------------------------------------

  /** What Python strips from both ends of a string. */
  predicate IsSpace(c: char) {
    c == ' ' || '\t' <= c <= '\r' || '\U{001C}' <= c <= '\U{001F}' || c == '\U{0085}' || c == '\U{00A0}'
    || c == '\U{1680}' || '\U{2000}' <= c <= '\U{200A}' || c == '\U{2028}' || c == '\U{2029}' || c == '\U{202F}'
    || c == '\U{205F}' || c == '\U{3000}'
  }

  /** These and no others. */
  lemma SpacesInFull(c: char)
    ensures IsSpace(c) <==>
            c in "\t\n\U{000B}\U{000C}\r\U{001C}\U{001D}\U{001E}\U{001F}\U{0020}\U{0085}\U{00A0}\U{1680}"
            || c in "\U{2000}\U{2001}\U{2002}\U{2003}\U{2004}\U{2005}\U{2006}\U{2007}\U{2008}\U{2009}\U{200A}"
            || c in "\U{2028}\U{2029}\U{202F}\U{205F}\U{3000}"
  {
  }

  function Strip(s: string): string
    decreases |s|
  {
    if s == "" then ""
    else if IsSpace(s[0]) then Strip(s[1..])
    else if IsSpace(s[|s| - 1]) then Strip(s[..|s| - 1])
    else s
  }

  predicate EndsWith(s: string, suffix: string) {
    |suffix| <= |s| && s[|s| - |suffix|..] == suffix
  }

  /** An entry matches exactly, or covers a whole namespace; a blank entry matches nothing. */
  predicate Matches(capability: string, pattern: string) {
    var cap, entry := Strip(capability), Strip(pattern);
    entry != "" && (entry == cap || (EndsWith(entry, ".*") && StartsWith(cap, entry[..|entry| - 1])))
  }

  predicate MatchesSome(capability: string, patterns: seq<string>) {
    exists p :: p in patterns && Matches(capability, p)
  }

  method MatchesAny(capability: string, patterns: seq<string>) returns (found: bool)
    ensures found == MatchesSome(capability, patterns)
  {
    var cap := Strip(capability);
    for i := 0 to |patterns|
      invariant forall j :: 0 <= j < i ==> !Matches(capability, patterns[j])
    {
      var entry := Strip(patterns[i]);
      if entry == "" {
        continue;
      }
      if entry == cap {
        assert Matches(capability, patterns[i]);
        return true;
      }
      if EndsWith(entry, ".*") && StartsWith(cap, entry[..|entry| - 1]) {
        assert Matches(capability, patterns[i]);
        return true;
      }
    }
    return false;
  }

  /** An entry with nothing to strip and no namespace suffix stands for itself only. */
  predicate Plain(entry: string) {
    entry != "" && !IsSpace(entry[0]) && !IsSpace(entry[|entry| - 1]) && !EndsWith(entry, ".*")
  }

  lemma PlainMatchesItself(capability: string, entry: string)
    requires Plain(entry)
    ensures Matches(capability, entry) <==> Strip(capability) == entry
  {
  }

  lemma PlainEntriesAreAList(capability: string, entries: seq<string>)
    requires forall e :: e in entries ==> Plain(e)
    ensures MatchesSome(capability, entries) <==> Strip(capability) in entries
  {
    forall e | e in entries ensures Matches(capability, e) <==> Strip(capability) == e {
      PlainMatchesItself(capability, e);
    }
  }

  predicate AllSpace(s: string) {
    forall i :: 0 <= i < |s| ==> IsSpace(s[i])
  }

  /** Space on either side does not matter. */
  lemma {:induction false} StripPadded(pad: string, s: string, end: string)
    requires AllSpace(pad) && AllSpace(end)
    ensures Strip(pad + s + end) == Strip(s)
    decreases |pad| + |s| + |end|
  {
    var all := pad + s + end;
    if pad != "" {
      StripPadded(pad[1..], s, end);
      assert all[1..] == pad[1..] + s + end;
    } else if s == "" {
      StripBlank(end);
      assert all == end;
    } else if IsSpace(s[0]) {
      StripPadded("", s[1..], end);
      assert all[1..] == "" + s[1..] + end;
    } else if end != "" {
      StripPadded("", s, end[..|end| - 1]);
      assert all[..|all| - 1] == "" + s + end[..|end| - 1];
    } else {
      assert all == s;
    }
  }

  lemma AllSpaceFirst(s: string)
    requires s != ""
    ensures AllSpace(s) <==> IsSpace(s[0]) && AllSpace(s[1..])
  {
    hide IsSpace;
    assert s == [s[0]] + s[1..];
    if AllSpace(s[1..]) {
      forall i | 1 <= i < |s| ensures IsSpace(s[i]) {
        assert s[1..][i - 1] == s[i];
      }
    }
  }

  lemma {:induction false} StripBlank(s: string)
    ensures Strip(s) == "" <==> AllSpace(s)
    decreases |s|
  {
    hide IsSpace;
    if s != "" {
      AllSpaceFirst(s);
      if IsSpace(s[0]) {
        StripBlank(s[1..]);
      } else if IsSpace(s[|s| - 1]) {
        StripBlank(s[..|s| - 1]);
      }
    }
  }

  lemma NothingIsSpace(s: string)
    ensures s[0..|s|] == s && AllSpace(s[..0]) && AllSpace(s[|s|..])
  {
  }

  lemma SpaceOnTheLeft(s: string, i: nat, j: nat)
    requires s != "" && IsSpace(s[0]) && i <= j <= |s| - 1 && AllSpace(s[1..][..i]) && AllSpace(s[1..][j..])
    ensures s[1..][i..j] == s[i + 1..j + 1] && AllSpace(s[..i + 1]) && AllSpace(s[j + 1..])
  {
    hide IsSpace;
    assert s[1..][j..] == s[j + 1..] && s[..i + 1] == [s[0]] + s[1..][..i];
  }

  lemma SpaceOnTheRight(s: string, i: nat, j: nat)
    requires var m := |s| - 1;
             s != "" && IsSpace(s[m]) && i <= j <= m && AllSpace(s[..m][..i]) && AllSpace(s[..m][j..])
    ensures s[..|s| - 1][i..j] == s[i..j] && AllSpace(s[..i]) && AllSpace(s[j..])
  {
    hide IsSpace;
    var m := |s| - 1;
    assert s[..m][..i] == s[..i] && s[j..] == s[..m][j..] + [s[m]];
  }

  /** What is taken away is space on both sides, and what is left begins and ends with something else. */
  lemma {:induction false} StripKeepsTheRest(s: string) returns (i: nat, j: nat)
    ensures i <= j <= |s| && Strip(s) == s[i..j] && AllSpace(s[..i]) && AllSpace(s[j..])
    ensures i < j ==> !IsSpace(s[i]) && !IsSpace(s[j - 1])
    decreases |s|
  {
    hide IsSpace, AllSpace;
    if s == "" {
      i, j := 0, 0;
      NothingIsSpace(s);
    } else if IsSpace(s[0]) {
      i, j := StripKeepsTheRest(s[1..]);
      SpaceOnTheLeft(s, i, j);
      i, j := i + 1, j + 1;
    } else if IsSpace(s[|s| - 1]) {
      i, j := StripKeepsTheRest(s[..|s| - 1]);
      SpaceOnTheRight(s, i, j);
    } else {
      i, j := 0, |s|;
      NothingIsSpace(s);
    }
  }

  /** An entry of nothing but space matches no capability, not even a blank one. */
  lemma BlankMatchesNothing(capability: string, entry: string)
    requires AllSpace(entry)
    ensures !Matches(capability, entry)
  {
    StripBlank(entry);
  }

  /** A namespace entry, padded or not, covers the namespace and nothing beside it but itself. */
  lemma NamespaceEntry(capability: string, pad: string, space: string, end: string)
    requires AllSpace(pad) && AllSpace(end)
    requires space != "" ==> !IsSpace(space[0])
    ensures Matches(capability, pad + (space + ".*") + end) <==>
            Strip(capability) == space + ".*" || StartsWith(Strip(capability), space + ".")
  {
    var entry := space + ".*";
    StripPadded(pad, entry, end);
    assert Strip(entry) == entry;
    assert entry[|entry| - 2..] == ".*" && entry[..|entry| - 1] == space + ".";
  }

  // ---------------------------------------------------------------------------
  // Classes
  // ---------------------------------------------------------------------------

  datatype IdentityClass = IdentityClass(
    name: string, allowed: seq<string>, forbidden: seq<string>, minimumMode: Mode)

  const WILDCARD := "*"

  predicate Forbids(c: IdentityClass, capability: string) {
    MatchesSome(capability, c.forbidden)
  }

  predicate Permits(c: IdentityClass, capability: string) {
    WILDCARD in c.allowed || MatchesSome(capability, c.allowed)
  }

  const MACHINE_READ := [
    "memory:read", "sync:pull", "trust:read", "audit:read", "agent:status", "identity:verify",
    "skchat.inbox", "skchat.status"]

  const OPERATOR_ONLY := [WILDCARD, "token:issue", "identity:sign"]

  const OPERATOR := IdentityClass("operator", [WILDCARD], [], Verified)
  const AGENT := IdentityClass("agent", [WILDCARD], OPERATOR_ONLY, Attested)
  const NODE := IdentityClass("node", ["skgateway.infer"] + MACHINE_READ, OPERATOR_ONLY, Attested)
  const EDGE_DEVICE := IdentityClass(
    "edge-device", ["skchat.send", "skchat.media.write", "skchat.voice", "skchat.calls"] + MACHINE_READ,
    OPERATOR_ONLY, Tofu)

  type ClassTable = map<string, IdentityClass>

  const DEFAULT_CLASSES: ClassTable :=
    map["operator" := OPERATOR, "agent" := AGENT, "node" := NODE, "edge-device" := EDGE_DEVICE]

  lemma DefaultEntriesArePlain()
    ensures forall e :: e in OPERATOR_ONLY ==> Plain(e)
    ensures forall e :: e in NODE.allowed ==> Plain(e)
    ensures forall e :: e in EDGE_DEVICE.allowed ==> Plain(e)
  {
    OperatorOnlyIsPlain();
    MachineReadIsPlain();
    assert Plain("skgateway.infer");
    assert Plain("skchat.send") && Plain("skchat.media.write") && Plain("skchat.voice") && Plain("skchat.calls");
  }

  lemma OperatorOnlyIsPlain()
    ensures forall e :: e in OPERATOR_ONLY ==> Plain(e)
  {
    assert Plain("*") && Plain("token:issue") && Plain("identity:sign");
  }

  lemma MachineReadIsPlain()
    ensures forall e :: e in MACHINE_READ ==> Plain(e)
  {
    assert Plain("memory:read") && Plain("sync:pull") && Plain("trust:read") && Plain("audit:read");
    assert Plain("agent:status") && Plain("identity:verify") && Plain("skchat.inbox") && Plain("skchat.status");
  }

  /** The default ceilings in full: what each class forbids and permits, for any requested capability. */
  lemma DefaultCeilings(capability: string)
    ensures !Forbids(OPERATOR, capability) && Permits(OPERATOR, capability)
    ensures Forbids(AGENT, capability) <==> Strip(capability) in ["*", "token:issue", "identity:sign"]
    ensures Forbids(NODE, capability) <==> Strip(capability) in ["*", "token:issue", "identity:sign"]
    ensures Forbids(EDGE_DEVICE, capability) <==> Strip(capability) in ["*", "token:issue", "identity:sign"]
    ensures Permits(AGENT, capability)
    ensures Permits(NODE, capability) <==>
            Strip(capability) in ["skgateway.infer", "memory:read", "sync:pull", "trust:read", "audit:read",
                                  "agent:status", "identity:verify", "skchat.inbox", "skchat.status"]
    ensures Permits(EDGE_DEVICE, capability) <==>
            Strip(capability) in ["skchat.send", "skchat.media.write", "skchat.voice", "skchat.calls", "memory:read",
                                  "sync:pull", "trust:read", "audit:read", "agent:status", "identity:verify",
                                  "skchat.inbox", "skchat.status"]
  {
    DefaultEntriesArePlain();
    PlainEntriesAreAList(capability, OPERATOR_ONLY);
    PlainEntriesAreAList(capability, NODE.allowed);
    PlainEntriesAreAList(capability, EDGE_DEVICE.allowed);
    assert WILDCARD !in NODE.allowed && WILDCARD !in EDGE_DEVICE.allowed;
    DefaultLists();
    hide Forbids, Permits, MatchesSome, Strip;
  }

  lemma DefaultLists()
    ensures OPERATOR_ONLY == ["*", "token:issue", "identity:sign"]
    ensures NODE.allowed == ["skgateway.infer", "memory:read", "sync:pull", "trust:read", "audit:read",
                             "agent:status", "identity:verify", "skchat.inbox", "skchat.status"]
    ensures EDGE_DEVICE.allowed ==
            ["skchat.send", "skchat.media.write", "skchat.voice", "skchat.calls", "memory:read", "sync:pull",
             "trust:read", "audit:read", "agent:status", "identity:verify", "skchat.inbox", "skchat.status"]
  {
  }

  /** Under which name each class stands in the default table, and the floor it imposes. */
  lemma DefaultTable()
    ensures DEFAULT_CLASSES.Keys == {"operator", "agent", "node", "edge-device"}
    ensures DEFAULT_CLASSES["operator"] == OPERATOR && DEFAULT_CLASSES["agent"] == AGENT
    ensures DEFAULT_CLASSES["node"] == NODE && DEFAULT_CLASSES["edge-device"] == EDGE_DEVICE
    ensures OPERATOR.minimumMode == Verified && AGENT.minimumMode == Attested
    ensures NODE.minimumMode == Attested && EDGE_DEVICE.minimumMode == Tofu
  {
    assert "node"[0] == 'n' && "operator"[0] == 'o' && "agent"[0] == 'a' && "edge-device"[0] == 'e';
  }

  // ---------------------------------------------------------------------------
  // Assignments
  // ---------------------------------------------------------------------------

  datatype AssignmentsFile = Missing | Unreadable | Stored(assignments: map<string, string>)

  datatype Resolution = Unusable | Unclassified | Classified(identityClass: IdentityClass)

  datatype AssignError = UnknownClass | BlankSubject | UnusableFile

  /** What one key of a subject says. */
  function Lookup(key: string, file: AssignmentsFile, table: ClassTable): Resolution {
    match file
    case Missing => Unclassified
    case Unreadable => Unusable
    case Stored(assignments) =>
      if key !in assignments then Unclassified
      else if assignments[key] !in table then Unusable
      else Classified(table[assignments[key]])
  }

  /** The first key that has an assignment decides; an unreadable file decides whatever the keys. */
  function Resolve(keys: seq<string>, file: AssignmentsFile, table: ClassTable): Resolution {
    if file.Unreadable? then Unusable
    else if keys == [] then Unclassified
    else if Lookup(keys[0], file, table).Unclassified? then Resolve(keys[1..], file, table)
    else Lookup(keys[0], file, table)
  }

  lemma {:induction false} ResolveSkips(keys: seq<string>, i: nat, file: AssignmentsFile, table: ClassTable)
    requires i <= |keys|
    requires forall j :: 0 <= j < i ==> Lookup(keys[j], file, table).Unclassified?
    ensures Resolve(keys, file, table) == Resolve(keys[i..], file, table)
    decreases i
  {
    if i > 0 {
      ResolveSkips(keys, i - 1, file, table);
      assert keys[i - 1..][1..] == keys[i..];
    } else {
      assert keys[0..] == keys;
    }
  }

  method ResolveIdentityClass(keys: seq<string>, file: AssignmentsFile, table: ClassTable) returns (r: Resolution)
    ensures r == Resolve(keys, file, table)
  {
    if file.Unreadable? {
      return Unusable;
    }
    var assignments := if file.Missing? then map[] else file.assignments;
    if assignments == map[] {
      assert forall j :: 0 <= j < |keys| ==> Lookup(keys[j], file, table).Unclassified?;
      ResolveSkips(keys, |keys|, file, table);
      return Unclassified;
    }
    for i := 0 to |keys|
      invariant forall j :: 0 <= j < i ==> Lookup(keys[j], file, table).Unclassified?
    {
      if keys[i] !in assignments {
        continue;
      }
      ResolveSkips(keys, i, file, table);
      if assignments[keys[i]] !in table {
        return Unusable;
      }
      return Classified(table[assignments[keys[i]]]);
    }
    ResolveSkips(keys, |keys|, file, table);
    return Unclassified;
  }

  /** Exactly what the assignments say: the first assigned key decides, and what cannot be told is not passed over. */
  lemma ResolveInFields(keys: seq<string>, file: AssignmentsFile, table: ClassTable)
    ensures file.Unreadable? ==> Resolve(keys, file, table).Unusable?
    ensures file.Missing? ==> Resolve(keys, file, table).Unclassified?
    ensures file.Stored? && (forall k :: k in keys ==> k !in file.assignments) ==>
              Resolve(keys, file, table).Unclassified?
    ensures forall i :: 0 <= i < |keys| && file.Stored? && keys[i] in file.assignments
                        && (forall j :: 0 <= j < i ==> keys[j] !in file.assignments) ==>
              Resolve(keys, file, table) ==
              if file.assignments[keys[i]] in table then Classified(table[file.assignments[keys[i]]]) else Unusable
  {
    if !file.Unreadable? && (file.Missing? || forall k :: k in keys ==> k !in file.assignments) {
      ResolveSkips(keys, |keys|, file, table);
    }
    forall i | 0 <= i < |keys| && file.Stored? && keys[i] in file.assignments
               && (forall j :: 0 <= j < i ==> keys[j] !in file.assignments)
      ensures Resolve(keys, file, table) ==
              if file.assignments[keys[i]] in table then Classified(table[file.assignments[keys[i]]]) else Unusable
    {
      ResolveSkips(keys, i, file, table);
    }
  }

  /**
    A subject has one or two keys, visited in no particular order: the order is immaterial exactly
    if the two keys are not assigned to classes that differ.
   */
  lemma OrderIsImmaterial(a: string, b: string, file: AssignmentsFile, table: ClassTable)
    ensures Resolve([a, b], file, table) == Resolve([b, a], file, table) <==>
            var x, y := Lookup(a, file, table), Lookup(b, file, table);
            x.Unclassified? || y.Unclassified? || x == y
  {
    assert [a, b][1..] == [b] && [b, a][1..] == [a];
    assert [b][1..] == [] && [a][1..] == [];
  }

  /** What the default table says of one key that is assigned a class by name. */
  lemma DefaultLookups(assignments: map<string, string>, key: string)
    requires key in assignments
    ensures assignments[key] == "node" ==> Lookup(key, Stored(assignments), DEFAULT_CLASSES) == Classified(NODE)
    ensures assignments[key] == "operator" ==> Lookup(key, Stored(assignments), DEFAULT_CLASSES) == Classified(OPERATOR)
  {
    hide NODE, OPERATOR, AGENT, EDGE_DEVICE;
    assert "node"[0] == 'n' && "operator"[0] == 'o' && "agent"[0] == 'a' && "edge-device"[0] == 'e';
  }

  const AS_BOTH := map["s" := "node", "t" := "operator"]

  /** It does matter: a node under one name and an operator under the other. */
  lemma OrderMatters()
    ensures Resolve(["s", "t"], Stored(AS_BOTH), DEFAULT_CLASSES) == Classified(NODE)
    ensures Resolve(["t", "s"], Stored(AS_BOTH), DEFAULT_CLASSES) == Classified(OPERATOR)
  {
    hide NODE, OPERATOR, DEFAULT_CLASSES;
    assert "s"[0] != "t"[0];
    DefaultLookups(AS_BOTH, "s");
    DefaultLookups(AS_BOTH, "t");
  }

  /** Letter case and canonical names: whatever the naming rules are, they are functions of the subject. */
  datatype Naming = Naming(lower: string -> string, canonical: string -> Option<string>)

  function StoredKey(names: Naming, subject: string): string {
    names.lower(Strip(subject))
  }

  /** The names under which a subject is looked up; one that has no canonical name has one only. */
  function SubjectKeys(names: Naming, subject: string): set<string> {
    {StoredKey(names, subject)}
    + match names.canonical(Strip(subject))
      case Some(name) => {name}
      case None => {}
  }

  class ClassAssignments {
    const names: Naming
    var file: AssignmentsFile

    constructor (names: Naming, file: AssignmentsFile)
      ensures this.names == names && this.file == file
    {
      this.names, this.file := names, file;
    }

    /** Assign a subject to a class of the table. */
    method Assign(subject: string, className: string, table: ClassTable) returns (r: Result<string, AssignError>)
      modifies this
      ensures r.Ok? <==>
              Strip(className) in table && StoredKey(names, subject) != "" && !old(file).Unreadable?
      ensures r.Err? ==> file == old(file)
      ensures r.Ok? ==>
              && r.value == Strip(className) && file == Assigned(old(file), StoredKey(names, subject), r.value)
              && file == Stored((if old(file).Missing? then map[] else old(file).assignments)
                                [names.lower(Strip(subject)) := Strip(className)])
    {
      var name := Strip(className);
      if name !in table {
        return Err(UnknownClass);
      }
      var key := names.lower(Strip(subject));
      if key == "" {
        return Err(BlankSubject);
      }
      if file.Unreadable? {
        return Err(UnusableFile);
      }
      var assignments := if file.Missing? then map[] else file.assignments;
      file := Stored(assignments[key := name]);
      return Ok(name);
    }
  }

  function Assigned(file: AssignmentsFile, key: string, name: string): AssignmentsFile
    requires !file.Unreadable?
  {
    Stored((if file.Missing? then map[] else file.assignments)[key := name])
  }

  /** An assignment takes effect for its subject if no other key of the subject has one, and for nobody else. */
  lemma {:induction false} AssignThenResolve(keys: seq<string>, file: AssignmentsFile, key: string, name: string,
                                             table: ClassTable)
    requires !file.Unreadable? && name in table
    ensures key !in keys ==> Resolve(keys, Assigned(file, key, name), table) == Resolve(keys, file, table)
    ensures key in keys && (forall k :: k in keys && k != key ==> Lookup(k, file, table).Unclassified?)
            ==> Resolve(keys, Assigned(file, key, name), table) == Classified(table[name])
    decreases |keys|
  {
    if keys != [] {
      AssignThenResolve(keys[1..], file, key, name, table);
      assert keys == [keys[0]] + keys[1..];
      assert keys[0] != key ==> Lookup(keys[0], Assigned(file, key, name), table) == Lookup(keys[0], file, table);
    }
  }

  /** In whatever order its names are looked up, a subject has its assigned class, unless another name has one. */
  lemma AssignedSubjectResolves(names: Naming, subject: string, keys: seq<string>, file: AssignmentsFile,
                                name: string, table: ClassTable)
    requires !file.Unreadable? && name in table
    requires forall k :: k in keys <==> k in SubjectKeys(names, subject)
    requires forall k :: k in keys && k != StoredKey(names, subject) ==> Lookup(k, file, table).Unclassified?
    ensures Resolve(keys, Assigned(file, StoredKey(names, subject), name), table) == Classified(table[name])
  {
    AssignThenResolve(keys, file, StoredKey(names, subject), name, table);
  }

  /** A class that was assigned to the canonical name holds under every way to write the subject that has it. */
  lemma CanonicalNameResolves(names: Naming, subject: string, keys: seq<string>, name: string,
                              assignments: map<string, string>, table: ClassTable)
    requires names.canonical(Strip(subject)) == Some(name) && name in assignments && assignments[name] in table
    requires forall k :: k in keys <==> k in SubjectKeys(names, subject)
    requires StoredKey(names, subject) != name ==> StoredKey(names, subject) !in assignments
    ensures Resolve(keys, Stored(assignments), table) == Classified(table[assignments[name]])
  {
    assert assignments[name := assignments[name]] == assignments;
    AssignThenResolve(keys, Stored(assignments), name, assignments[name], table);
  }
}
