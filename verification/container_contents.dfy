/** What the decoder's container loops put into the dictionaries they fill
    (FastAmf3/Amf3Reader.cs:235-279 and 342-376): the keys of the new
    entries, in order, and that nothing already there is disturbed. Each
    lemma follows the recursion of the loop it is about. */
module Amf3ContainerContents {
  import opened Wrappers
  import opened Amf3Type
  import opened ClassDefinitions
  import opened Amf3Decoding

  /** The key loop `while (key != "")`: the dictionary keeps its entries and
      gains one entry per non-empty key, the first of them under `key`; an
      empty first key adds nothing. */
  lemma {:induction false} ReadPairsKeys(src: Source, st: RState, at: nat, key: Str)
    requires 0 <= st.index <= |src.bin|
    requires at < |st.objects| && st.objects[at].Dictionary?
    ensures var r := ReadPairs(src, st, at, key);
      r.Ok? ==>
        var before := st.objects[at].entries;
        var after := r.value.objects[at].entries;
        && before <= after
        && (forall k | |before| <= k < |after| :: after[k].0 != [])
        && (key == [] ==> after == before)
        && (key != [] ==> |before| < |after| && after[|before|].0 == key)
    decreases Remaining(src, st)
  {
    if key != [] {
      var read := ReadData(src, st);
      if read.Ok? {
        var (v, st1) := read.value;
        var added := Add(st1, at, key, v);
        if added.Ok? {
          var next := ReadString(src, added.value);
          if next.Ok? {
            ReadPairsKeys(src, next.value.1, at, next.value.0);
          }
        }
      }
    }
  }

  /** The numbered loop of an associative array: elements `i` .. `n`-1 are
      added under `i.ToString()` .. `(n-1).ToString()`, in order, after the
      entries already there. */
  lemma {:induction false} ReadNumberedKeys(src: Source, st: RState, at: nat, i: nat, n: nat)
    requires 0 <= st.index <= |src.bin|
    requires at < |st.objects| && st.objects[at].Dictionary? && i <= n
    ensures var r := ReadNumbered(src, st, at, i, n);
      r.Ok? ==> NumberedFrom(st.objects[at].entries, r.value.objects[at].entries, i, n)
    decreases n - i
  {
    if i < n {
      var read := ReadData(src, st);
      if read.Ok? {
        var (v, st1) := read.value;
        var added := Add(st1, at, Decimal(i), v);
        if added.Ok? {
          ReadNumberedKeys(src, added.value, at, i + 1, n);
        }
      }
    }
  }

  /** The rest of an associative array: its `length` numbered elements
      follow the key-stream entries, under "0" .. "length-1". */
  lemma FinishAssociativeKeys(src: Source, pairs: Result<RState>, at: nat, length: nat)
    requires pairs.Ok? ==> 0 <= pairs.value.index <= |src.bin|
    requires pairs.Ok? ==> at < |pairs.value.objects| && pairs.value.objects[at].Dictionary?
    ensures var r := FinishAssociative(src, pairs, at, length);
      r.Ok? ==> NumberedFrom(pairs.value.objects[at].entries, r.value.1.objects[at].entries, 0, length)
  {
    if pairs.Ok? {
      ReadNumberedKeys(src, pairs.value, at, 0, length);
    }
  }

  /** An associative array read in full: a new dictionary whose entries are
      the key stream's, under non-empty keys and starting with `key`, and then
      the `length` numbered elements under "0" .. "length-1". */
  lemma ReadAssociativeKeys(src: Source, st: RState, key: Str, length: nat)
    requires 0 <= st.index <= |src.bin|
    ensures var r := ReadAssociative(src, st, key, length);
      r.Ok? ==>
        var entries := r.value.1.objects[|st.objects|].entries;
        && length <= |entries|
        && NumberedFrom(entries[..|entries| - length], entries, 0, length)
        && (forall k | 0 <= k < |entries| - length :: entries[k].0 != [])
        && (key != [] ==> length < |entries| && entries[0].0 == key)
  {
    var at := |st.objects|;
    var st1 := Intern(st, Dictionary([]));
    var pairs := ReadPairs(src, st1, at, key);
    ReadPairsKeys(src, st1, at, key);
    FinishAssociativeKeys(src, pairs, at, length);
    var r := ReadAssociative(src, st, key, length);
    if r.Ok? {
      assert r == FinishAssociative(src, pairs, at, length);
      var before := pairs.value.objects[at].entries;
      var entries := r.value.1.objects[at].entries;
      assert NumberedFrom(before, entries, 0, length);
      assert entries[..|entries| - length] == before;
    }
  }

  /** The member loop of `ReadAmf3Object(classDefinition)` from member `i`:
      one entry per remaining declared member, under its name and in member
      order; then, for a dynamic trait only, the key stream's entries, whose
      keys are never empty. */
  lemma {:induction false} ReadMembersKeys(src: Source, st: RState, at: nat, t: ClassDefinition, i: nat)
    requires 0 <= st.index <= |src.bin|
    requires at < |st.objects| && st.objects[at].Dictionary? && i <= t.MemberCount()
    ensures var r := ReadMembers(src, st, at, t, i);
      r.Ok? ==>
        var before := st.objects[at].entries;
        var after := r.value.objects[at].entries;
        && MembersFrom(before, after, t, i)
        && (!t.isDynamic ==> |after| == |before| + (t.MemberCount() - i))
        && (forall k | |before| + (t.MemberCount() - i) <= k < |after| :: after[k].0 != [])
    decreases Remaining(src, st), t.MemberCount() - i
  {
    if i == t.MemberCount() {
      if t.isDynamic {
        var first := ReadString(src, st);
        if first.Ok? {
          ReadPairsKeys(src, first.value.1, at, first.value.0);
        }
      }
    } else {
      var read := ReadData(src, st);
      if read.Ok? {
        var (v, st1) := read.value;
        var added := Add(st1, at, t.MemberName(i), v);
        if added.Ok? {
          ReadMembersKeys(src, added.value, at, t, i + 1);
        }
      }
    }
  }

  /** `ReadAmf3Object(classDefinition)`: a new dictionary holding the class
      name under "$type" exactly when the trait is typed, then one entry per
      declared member under its name, in member order; for a trait that is
      not dynamic, nothing else. */
  lemma ReadSealedKeys(src: Source, st: RState, t: ClassDefinition)
    requires 0 <= st.index <= |src.bin|
    ensures var r := ReadSealed(src, st, t);
      r.Ok? ==>
        var entries := r.value.1.objects[|st.objects|].entries;
        && MembersFrom(SealedHeader(t), entries, t, 0)
        && (!t.isDynamic ==> |entries| == |SealedHeader(t)| + t.MemberCount())
  {
    ReadMembersKeys(src, Intern(st, Dictionary(SealedHeader(t))), |st.objects|, t, 0);
  }
}
