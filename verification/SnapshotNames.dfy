/** Snapshot names: the "namespace/name" strings the controller uses as cache keys,
    as operation names and as the back reference stored in VolumeSnapshotData. */
module SnapshotNames {
  import opened Wrappers

  function MakeSnapshotName(namespace: string, name: string): string {
    namespace + "/" + name
  }

  /** Go's strings.Split: cuts s at every separator, keeping empty parts. */
  function Split(s: string, sep: char): (parts: seq<string>)
    ensures |parts| >= 1
  {
    if s == "" then [""]
    else
      var rest := Split(s[1..], sep);
      if s[0] == sep then [""] + rest
      else [[s[0]] + rest[0]] + rest[1..]
  }

  function ParseSnapshotName(name: string): Option<(string, string)> {
    var parts := Split(name, '/');
    if |parts| != 2 then None else Some((parts[0], parts[1]))
  }

  predicate NoSlash(s: string) {
    '/' !in s
  }

  ghost predicate IsSnapshotName(s: string) {
    exists ns, n :: NoSlash(ns) && NoSlash(n) && s == MakeSnapshotName(ns, n)
  }

  lemma {:induction false} SplitNoSlash(s: string)
    requires NoSlash(s)
    ensures Split(s, '/') == [s]
  {
    if s != "" {
      SplitNoSlash(s[1..]);
      assert s == [s[0]] + s[1..];
    }
  }

  /** Splitting at a separator: the first part is the text before it. */
  lemma {:induction false} SplitAtSlash(a: string, b: string)
    requires NoSlash(a)
    ensures Split(a + "/" + b, '/') == [a] + Split(b, '/')
  {
    var s := a + "/" + b;
    if a == "" {
      assert s[1..] == b;
    } else {
      assert s[1..] == a[1..] + "/" + b;
      SplitAtSlash(a[1..], b);
      assert a == [a[0]] + a[1..];
      assert ([a[1..]] + Split(b, '/'))[1..] == Split(b, '/');
    }
  }

  lemma {:induction false} SplitCountsSlashes(s: string)
    ensures |Split(s, '/')| == multiset(s)['/'] + 1
  {
    if s != "" {
      SplitCountsSlashes(s[1..]);
      assert s == [s[0]] + s[1..];
    }
  }

  /** The name round-trips exactly when neither half contains a slash. */
  lemma MakeThenParse(namespace: string, name: string)
    ensures ParseSnapshotName(MakeSnapshotName(namespace, name)) == Some((namespace, name))
            <==> NoSlash(namespace) && NoSlash(name)
  {
    var s := MakeSnapshotName(namespace, name);
    if NoSlash(namespace) && NoSlash(name) {
      SplitAtSlash(namespace, name);
      SplitNoSlash(name);
    } else {
      SplitCountsSlashes(s);
      assert multiset(s) == multiset(namespace) + multiset("/") + multiset(name);
      assert multiset(s)['/'] >= 2;
    }
  }

  /** Every name that parses is the name of the pair it parses to. */
  lemma {:induction false} ParseThenMake(s: string)
    ensures ParseSnapshotName(s).Some? ==>
              var (ns, n) := ParseSnapshotName(s).value;
              NoSlash(ns) && NoSlash(n) && MakeSnapshotName(ns, n) == s
  {
    if '/' in s {
      var i :| 0 <= i < |s| && s[i] == '/' && NoSlash(s[..i]) by { FirstSlash(s); }
      assert s == s[..i] + "/" + s[i + 1..];
      SplitAtSlash(s[..i], s[i + 1..]);
      SplitCountsSlashes(s[i + 1..]);
      if ParseSnapshotName(s).Some? {
        assert NoSlash(s[i + 1..]);
        SplitNoSlash(s[i + 1..]);
      }
    } else {
      SplitNoSlash(s);
    }
  }

  lemma {:induction false} FirstSlash(s: string)
    requires '/' in s
    ensures exists i :: 0 <= i < |s| && s[i] == '/' && NoSlash(s[..i])
  {
    if s[0] == '/' {
      assert s[0] == '/' && NoSlash(s[..0]);
    } else {
      FirstSlash(s[1..]);
      var i :| 0 <= i < |s[1..]| && s[1..][i] == '/' && NoSlash(s[1..][..i]);
      assert s[i + 1] == '/';
      assert s[..i + 1] == [s[0]] + s[1..][..i];
      assert NoSlash(s[..i + 1]);
    }
  }

  /** A snapshot name prefixed with a slash is not a snapshot name, so the by-name lookup's
      first alternative ("" + "/" + refName) never hits one. */
  lemma PrefixedNameIsNoName(s: string)
    requires IsSnapshotName(s)
    ensures !IsSnapshotName("" + "/" + s)
  {
    var ns, n :| NoSlash(ns) && NoSlash(n) && s == MakeSnapshotName(ns, n);
    MakeThenParse(ns, n);
    SplitAtSlash("", s);
    forall ns', n' | NoSlash(ns') && NoSlash(n') ensures "" + "/" + s != MakeSnapshotName(ns', n') {
      MakeThenParse(ns', n');
    }
  }
}
