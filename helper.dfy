/** Helper.cs: picking the container files of a data directory and deciding,
    from a directory's access rules, whether the tool may write there. */
module Helper {
  import opened Wrappers
  import opened Encoding
  import opened Chain

  /** GetFileIndex: -1 when the file-name pattern does not match, otherwise
      the number its first capture group spells. This is the definition;
      GetFilesExact states what the listing makes of it. */
  function GetFileIndex(name: string, fileRegex: string -> Option<Digits>): (index: int)
    ensures index < 0 <==> fileRegex(name).None?
    ensures index >= 0 ==> index == DigitsValue(fileRegex(name).value)
  {
    match fileRegex(name)
    case None => -1
    case Some(group) => DigitsValue(group)
  }

  // ---------------------------------------------------------------------
  // Ordering of file names

  /** Ordinal (code point by code point) string order, a before b or equal. */
  predicate OrdinalLe(a: string, b: string)
  {
    a == [] || (b != [] && (a[0] < b[0] || (a[0] == b[0] && OrdinalLe(a[1..], b[1..]))))
  }

  lemma {:induction false} OrdinalLeTotal(a: string, b: string)
    ensures OrdinalLe(a, b) || OrdinalLe(b, a)
  {
    if a != [] && b != [] && a[0] == b[0] {
      OrdinalLeTotal(a[1..], b[1..]);
    }
  }

  lemma {:induction false} OrdinalLeTransitive(a: string, b: string, c: string)
    requires OrdinalLe(a, b) && OrdinalLe(b, c)
    ensures OrdinalLe(a, c)
  {
    if a != [] && b != [] && c != [] && a[0] == b[0] == c[0] {
      OrdinalLeTransitive(a[1..], b[1..], c[1..]);
    }
  }

  /** The two orders the tool lists files in: OrderBy(f => f.Name) and
      OrderByDescending(f => f.FullName). */
  datatype FileOrder = NameAscending | FullNameDescending

  predicate Precedes(o: FileOrder, f: ContainerFile, g: ContainerFile)
  {
    match o
    case NameAscending => OrdinalLe(f.name, g.name)
    case FullNameDescending => OrdinalLe(g.fullName, f.fullName)
  }

  lemma PrecedesTotal(o: FileOrder, f: ContainerFile, g: ContainerFile)
    ensures Precedes(o, f, g) || Precedes(o, g, f)
  {
    OrdinalLeTotal(f.name, g.name);
    OrdinalLeTotal(f.fullName, g.fullName);
  }

  lemma PrecedesTransitive(o: FileOrder, f: ContainerFile, g: ContainerFile, h: ContainerFile)
    requires Precedes(o, f, g) && Precedes(o, g, h)
    ensures Precedes(o, f, h)
  {
    match o
    case NameAscending => OrdinalLeTransitive(f.name, g.name, h.name);
    case FullNameDescending => OrdinalLeTransitive(h.fullName, g.fullName, f.fullName);
  }

  ghost predicate Sorted(fs: seq<ContainerFile>, o: FileOrder)
  {
    forall i, j :: 0 <= i < j < |fs| ==> Precedes(o, fs[i], fs[j])
  }

  /** Places a file before the first one it precedes. */
  function Insert(f: ContainerFile, fs: seq<ContainerFile>, o: FileOrder): seq<ContainerFile>
  {
    if fs == [] then [f]
    else if Precedes(o, f, fs[0]) then [f] + fs
    else [fs[0]] + Insert(f, fs[1..], o)
  }

  /** Inserting adds exactly that file. */
  lemma {:induction false} InsertMultiset(f: ContainerFile, fs: seq<ContainerFile>, o: FileOrder)
    ensures multiset(Insert(f, fs, o)) == multiset(fs) + multiset{f}
  {
    if fs != [] && !Precedes(o, f, fs[0]) {
      InsertMultiset(f, fs[1..], o);
      assert fs == [fs[0]] + fs[1..];
    }
  }

  /** A file that precedes both the inserted file and every listed file
      precedes everything in the result. */
  lemma {:induction false} InsertLowerBound(b: ContainerFile, f: ContainerFile, fs: seq<ContainerFile>, o: FileOrder)
    requires Precedes(o, b, f)
    requires forall k :: 0 <= k < |fs| ==> Precedes(o, b, fs[k])
    ensures forall k :: 0 <= k < |Insert(f, fs, o)| ==> Precedes(o, b, Insert(f, fs, o)[k])
  {
    if fs != [] && !Precedes(o, f, fs[0]) {
      InsertLowerBound(b, f, fs[1..], o);
      var rest := Insert(f, fs[1..], o);
      assert forall k :: 0 < k <= |rest| ==> ([fs[0]] + rest)[k] == rest[k - 1];
    }
  }

  /** Inserting into a sorted list keeps it sorted. */
  lemma {:induction false} InsertSorted(f: ContainerFile, fs: seq<ContainerFile>, o: FileOrder)
    requires Sorted(fs, o)
    ensures Sorted(Insert(f, fs, o), o)
  {
    if fs == [] {
    } else if Precedes(o, f, fs[0]) {
      var r := [f] + fs;
      forall i, j | 0 <= i < j < |r| ensures Precedes(o, r[i], r[j]) {
        if i == 0 {
          if j > 1 {
            PrecedesTransitive(o, f, fs[0], fs[j - 1]);
          }
        } else {
          assert r[i] == fs[i - 1] && r[j] == fs[j - 1];
        }
      }
    } else {
      PrecedesTotal(o, f, fs[0]);
      var tail := fs[1..];
      assert forall k :: 0 <= k < |tail| ==> tail[k] == fs[k + 1];
      InsertSorted(f, tail, o);
      InsertLowerBound(fs[0], f, tail, o);
      var rest := Insert(f, tail, o);
      var r := [fs[0]] + rest;
      forall i, j | 0 <= i < j < |r| ensures Precedes(o, r[i], r[j]) {
        assert r[j] == rest[j - 1];
        if i > 0 {
          assert r[i] == rest[i - 1];
        }
      }
    }
  }

  /** An insertion sort, stable for files that precede each other both ways. */
  function SortFiles(fs: seq<ContainerFile>, o: FileOrder): seq<ContainerFile>
  {
    if fs == [] then [] else Insert(fs[0], SortFiles(fs[1..], o), o)
  }

  /** The sorted files are in order and are a permutation of the input. */
  lemma {:induction false} SortFilesSorted(fs: seq<ContainerFile>, o: FileOrder)
    ensures Sorted(SortFiles(fs, o), o)
    ensures multiset(SortFiles(fs, o)) == multiset(fs)
  {
    if fs != [] {
      SortFilesSorted(fs[1..], o);
      InsertSorted(fs[0], SortFiles(fs[1..], o), o);
      InsertMultiset(fs[0], SortFiles(fs[1..], o), o);
      assert fs == [fs[0]] + fs[1..];
    }
  }

  /** The files whose index is not negative, in their given order. */
  function Indexed(fs: seq<ContainerFile>, fileRegex: string -> Option<Digits>): (r: seq<ContainerFile>)
  {
    if fs == [] then []
    else (if GetFileIndex(fs[0].name, fileRegex) < 0 then [] else [fs[0]]) + Indexed(fs[1..], fileRegex)
  }

  /** Skipping files keeps exactly the files with a non-negative index,
      as often as they were there. */
  lemma {:induction false} IndexedCounts(fs: seq<ContainerFile>, fileRegex: string -> Option<Digits>)
    ensures forall f :: multiset(Indexed(fs, fileRegex))[f]
                        == if GetFileIndex(f.name, fileRegex) >= 0 then multiset(fs)[f] else 0
  {
    if fs != [] {
      IndexedCounts(fs[1..], fileRegex);
      assert fs == [fs[0]] + fs[1..];
    }
  }

  /** Skipping files keeps the order of the rest. */
  lemma {:induction false} IndexedSorted(fs: seq<ContainerFile>, fileRegex: string -> Option<Digits>, o: FileOrder)
    requires Sorted(fs, o)
    ensures Sorted(Indexed(fs, fileRegex), o)
  {
    if fs != [] {
      var rest := Indexed(fs[1..], fileRegex);
      IndexedSorted(fs[1..], fileRegex, o);
      IndexedCounts(fs[1..], fileRegex);
      if GetFileIndex(fs[0].name, fileRegex) >= 0 {
        var r := [fs[0]] + rest;
        forall i, j | 0 <= i < j < |r| ensures Precedes(o, r[i], r[j]) {
          var x := rest[j - 1];
          assert r[j] == x;
          if i == 0 {
            assert multiset(rest)[x] > 0;
            var k :| 0 <= k < |fs[1..]| && fs[1..][k] == x;
            assert fs[k + 1] == x;
          } else {
            assert r[i] == rest[i - 1];
          }
        }
      }
    }
  }

  /** GetFiles: the directory's files in ascending ordinal name order,
      those whose index is negative skipped. */
  function GetFiles(dir: seq<ContainerFile>, fileRegex: string -> Option<Digits>): seq<ContainerFile>
  {
    Indexed(SortFiles(dir, NameAscending), fileRegex)
  }

  /** The files listed are sorted by name, and each file is listed as often
      as it is in the directory when its index is not negative, else never. */
  lemma GetFilesExact(dir: seq<ContainerFile>, fileRegex: string -> Option<Digits>)
    ensures Sorted(GetFiles(dir, fileRegex), NameAscending)
    ensures forall f :: multiset(GetFiles(dir, fileRegex))[f]
                        == if GetFileIndex(f.name, fileRegex) >= 0 then multiset(dir)[f] else 0
  {
    SortFilesSorted(dir, NameAscending);
    IndexedSorted(SortFiles(dir, NameAscending), fileRegex, NameAscending);
    IndexedCounts(SortFiles(dir, NameAscending), fileRegex);
  }

  // ---------------------------------------------------------------------
  // Write permission

  datatype AccessControlType = Allow | Deny

  /** A FileSystemAccessRule: the rights it covers (FileSystemRights flags)
      and whether it allows or denies them. */
  datatype AccessRule = AccessRule(rights: bv32, controlType: AccessControlType)

  /** What Directory.GetAccessControl returns: the access rules, or no rule
      collection at all (null). */
  datatype DirectorySecurity = DirectorySecurity(rules: Option<seq<AccessRule>>)

  /** FileSystemRights.Write = WriteData | AppendData | WriteExtendedAttributes
      | WriteAttributes. */
  const WriteRights: bv32 := 0x116

  /** A rule counts only when its rights include every bit of Write. */
  predicate CoversWrite(r: AccessRule)
  {
    WriteRights & r.rights == WriteRights
  }

  predicate HasWriteRule(rules: seq<AccessRule>, t: AccessControlType)
  {
    exists i :: 0 <= i < |rules| && CoversWrite(rules[i]) && rules[i].controlType == t
  }

  /** Write access: some Write rule allows and no Write rule denies; a
      missing access-control list or rule collection means no access. */
  predicate WritePermitted(acl: Option<DirectorySecurity>)
  {
    && acl.Some? && acl.value.rules.Some?
    && HasWriteRule(acl.value.rules.value, Allow)
    && !HasWriteRule(acl.value.rules.value, Deny)
  }

  /** HasWritePermissionOnDir, given what Directory.GetAccessControl returned
      (null as None). */
  method HasWritePermissionOnDir(acl: Option<DirectorySecurity>) returns (permitted: bool)
    ensures permitted == WritePermitted(acl)
  {
    if acl.None? {
      return false;
    }
    if acl.value.rules.None? {
      return false;
    }
    var rules := acl.value.rules.value;
    var writeAllow := false;
    var writeDeny := false;
    for i := 0 to |rules|
      invariant writeAllow == HasWriteRule(rules[..i], Allow)
      invariant writeDeny == HasWriteRule(rules[..i], Deny)
    {
      assert rules[..i + 1] == rules[..i] + [rules[i]];
      if WriteRights & rules[i].rights != WriteRights {
        continue;
      }
      if rules[i].controlType == Allow {
        writeAllow := true;
      } else if rules[i].controlType == Deny {
        writeDeny := true;
      }
    }
    assert rules[..|rules|] == rules;
    return writeAllow && !writeDeny;
  }

  /** One Deny rule for Write refuses access wherever it stands among the rules. */
  lemma DenyOverrides(front: seq<AccessRule>, deny: AccessRule, back: seq<AccessRule>)
    requires CoversWrite(deny) && deny.controlType == Deny
    ensures !WritePermitted(Some(DirectorySecurity(Some(front + [deny] + back))))
  {
    assert (front + [deny] + back)[|front|] == deny;
  }

  /** The order of the rules does not matter. */
  lemma RuleOrderIrrelevant(rules1: seq<AccessRule>, rules2: seq<AccessRule>)
    requires multiset(rules1) == multiset(rules2)
    ensures WritePermitted(Some(DirectorySecurity(Some(rules1))))
            == WritePermitted(Some(DirectorySecurity(Some(rules2))))
  {
    forall t: AccessControlType ensures HasWriteRule(rules1, t) == HasWriteRule(rules2, t) {
      if HasWriteRule(rules1, t) {
        var i :| 0 <= i < |rules1| && CoversWrite(rules1[i]) && rules1[i].controlType == t;
        assert rules1[i] in multiset(rules2);
        var j :| 0 <= j < |rules2| && rules2[j] == rules1[i];
      }
      if HasWriteRule(rules2, t) {
        var i :| 0 <= i < |rules2| && CoversWrite(rules2[i]) && rules2[i].controlType == t;
        assert rules2[i] in multiset(rules1);
        var j :| 0 <= j < |rules1| && rules1[j] == rules2[i];
      }
    }
  }

  /** A rule lacking any bit of Write changes nothing, wherever it stands. */
  lemma PartialRuleIgnored(front: seq<AccessRule>, r: AccessRule, back: seq<AccessRule>)
    requires !CoversWrite(r)
    ensures WritePermitted(Some(DirectorySecurity(Some(front + [r] + back))))
            == WritePermitted(Some(DirectorySecurity(Some(front + back))))
  {
    var with, without := front + [r] + back, front + back;
    forall t: AccessControlType ensures HasWriteRule(with, t) == HasWriteRule(without, t) {
      if HasWriteRule(with, t) {
        var i :| 0 <= i < |with| && CoversWrite(with[i]) && with[i].controlType == t;
        if i < |front| { assert without[i] == with[i]; }
        else { assert i > |front| && without[i - 1] == with[i]; }
      }
      if HasWriteRule(without, t) {
        var i :| 0 <= i < |without| && CoversWrite(without[i]) && without[i].controlType == t;
        if i < |front| { assert with[i] == without[i]; }
        else { assert with[i + 1] == without[i]; }
      }
    }
  }
}
