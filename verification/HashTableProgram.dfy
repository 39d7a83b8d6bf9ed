/** The mutable hash table: find, insert and rehash as hashTable.c runs them, proved
    to keep a map from value to total repeat count. */
module HashTableProgram {
  import opened NumberTheory
  import opened HashTable
  import opened Sequences

  class Table {
    const size: nat
    const entries: array<Entry>
    var filled: nat
    ghost var contents: map<nat, int>   // value to total repeat count

    ghost predicate WellFormed()
      reads this, entries
    {
      && entries.Length == size
      && Sound(entries[..], filled)
      && Represents(entries[..], contents)
      && |contents| == filled
    }

    /** Between operations less than half of the slots are in use. */
    ghost predicate Valid()
      reads this, entries
    {
      WellFormed() && filled < size / 2
    }

    /** createHashTable.  The size is the least prime from n on if n is at least 2; sizes 0
        and 1 pass isPrime too, but leave no half to fill. */
    constructor (n: nat)
      ensures Valid() <==> n >= 2
      ensures contents == map[] && fresh(entries)
      ensures if n >= 2 then LeastPrime(size, n) else size == n
    {
      var realSize := NextPrime(n);
      size := realSize;
      entries := new Entry[realSize](_ => Entry(0, Empty, 0));
      filled := 0;
      contents := map[];
      new;
      forall m | n <= m < size
        ensures !Prime(m)
      {
        assert !Accepted(m);
      }
      assert n < 2 ==> Accepted(n);
      assert Occupied(entries[..]) == {};
    }

    /** find: the loop ends after at most `filled`, so fewer than size / 2, collisions,
        and `pos` stays in range with one conditional subtraction per collision. */
    method Find(value: nat) returns (pos: nat, collisions: nat)
      requires Valid()
      ensures collisions <= filled < size / 2
      ensures StopsAt(entries[..], value, collisions)
      ensures pos == Probe(Hash(value, size), collisions, size) && pos < size
      ensures if value in contents
              then entries[pos] == Entry(value, Legitimate, contents[value])
              else entries[pos].state == Empty
    {
      ghost var es := entries[..];
      pos := ComputeHash(value, size);
      ghost var h := pos;
      collisions := 0;
      ProbeStart(h, size);
      while entries[pos].state != Empty && entries[pos].value != value
        invariant collisions <= filled && pos == Probe(h, collisions, size)
        invariant Passes(es, value, collisions)
        decreases filled - collisions
      {
        assert PassesAt(es, value, collisions);
        PassesBound(es, value, collisions + 1);
        ProbeNext(h, collisions, size);
        collisions := collisions + 1;
        pos := pos + (2 * collisions - 1);
        if pos >= size {
          pos := pos - size;
        }
      }
      assert !PassesAt(es, value, collisions);
      StopMeaning(es, filled, contents, value, collisions);
    }

    /** The two assignments of insert: the slot where the search stopped takes
        `repeat` more occurrences of the value. */
    method Store(pos: nat, value: nat, repeat: int, ghost collisions: nat)
      requires Valid() && StopsAt(entries[..], value, collisions)
      requires pos == Probe(Hash(value, size), collisions, size)
      modifies this, entries
      ensures WellFormed() && contents == Added(old(contents), value, repeat)
      ensures filled == if value in old(contents) then old(filled) else old(filled) + 1
    {
      ghost var es := entries[..];
      StopMeaning(es, filled, contents, value, collisions);
      PlaceRepresents(es, filled, contents, value, collisions, repeat);
      if entries[pos].state == Legitimate {
        AddSound(es, filled, pos, repeat);
        entries[pos] := entries[pos].(repeat := entries[pos].repeat + repeat);
      } else if entries[pos].state == Empty {
        PlaceSound(es, filled, value, collisions, repeat);
        entries[pos] := Entry(value, Legitimate, entries[pos].repeat + repeat);
        filled := filled + 1;
      }
      assert entries[..] == Place(es, pos, value, repeat);
      contents := Added(contents, value, repeat);
    }

    /** insert: exactly one key gains `repeat`.  Below half load after the insertion the
        same table is returned, otherwise a new one whose size is the least prime from twice
        the size on. */
    method Insert(value: nat, repeat: int) returns (t: Table)
      requires Valid()
      modifies this, entries
      ensures t.Valid() && t.contents == Added(old(contents), value, repeat)
      ensures t == this || (fresh(t) && fresh(t.entries) && LeastPrime(t.size, 2 * size))
      ensures t == this <==> value in old(contents) || old(filled) + 1 < size / 2
      ensures t == this ==> filled == if value in old(contents) then old(filled) else old(filled) + 1
      decreases if filled + 1 < size / 2 then 0 else 3
    {
      var pos, collisions := Find(value);
      Store(pos, value, repeat, collisions);
      t := this;
      if filled >= size / 2 {
        t := Rehash();
      }
    }

    /** rehash: the whole map is preserved, and none of the inner inserts makes a
        table of its own, so dropping their results loses nothing. */
    method Rehash() returns (t: Table)
      requires WellFormed() && filled <= size / 2
      ensures t.Valid() && t.contents == contents
      ensures fresh(t) && fresh(t.entries) && LeastPrime(t.size, 2 * size)
      decreases 2
    {
      ghost var es := entries[..];
      t := new Table(size * 2);
      var i := 0;
      while i < size
        invariant 0 <= i <= size && t.Valid() && fresh(t) && fresh(t.entries) && LeastPrime(t.size, 2 * size)
        invariant entries[..] == es && Copied(es[..i], contents, t.contents)
      {
        CopyEntry(entries[i], t, es, filled, contents, i);
        i := i + 1;
      }
      assert es[..i] == es;
      AllCopied(es, contents, t.contents);
    }
  }

  /** The map counts the occurrences of each value of the sequence. */
  ghost predicate Counts(values: seq<nat>, m: map<nat, int>) {
    && (forall v :: v in m <==> v in values)
    && (forall v :: v in m ==> m[v] == multiset(values)[v])
  }

  lemma CountsNext(values: seq<nat>, v: nat, m: map<nat, int>)
    requires Counts(values, m)
    ensures Counts(values + [v], Added(m, v, 1))
  {
    assert multiset(values + [v]) == multiset(values) + multiset{v};
  }

  /** The loop of main: the table ends up counting every value of the input. */
  method Tally(values: seq<nat>) returns (t: Table)
    ensures t.Valid() && Counts(values, t.contents)
  {
    t := new Table(50);
    var i := 0;
    while i < |values|
      invariant 0 <= i <= |values| && t.Valid() && fresh(t) && fresh(t.entries)
      invariant Counts(values[..i], t.contents)
    {
      TakeNext(values, i);
      CountsNext(values[..i], values[i], t.contents);
      t := t.Insert(values[i], 1);
      i := i + 1;
    }
    TakeAll(values);
  }

  /** The body of rehash's loop; the table that insert returns is dropped. */
  method CopyEntry(e: Entry, t: Table, ghost es: seq<Entry>, ghost filled: nat, ghost m: map<nat, int>, ghost i: nat)
    requires t.Valid() && i < |es| && e == es[i] && t.size >= 2 * |es|
    requires Sound(es, filled) && Represents(es, m) && |m| == filled <= |es| / 2
    requires Copied(es[..i], m, t.contents)
    modifies t, t.entries
    ensures t.Valid() && Copied(es[..i + 1], m, t.contents)
    decreases 1
  {
    ghost var next := CopyStep(es, filled, m, t.contents, i);
    if e.state == Legitimate {
      var _ := t.Insert(e.value, e.repeat);
    }
  }

  /** What entry i adds to the copy, which had room for it. */
  lemma CopyStep(es: seq<Entry>, filled: nat, m: map<nat, int>, copy: map<nat, int>, i: nat) returns (next: map<nat, int>)
    requires Sound(es, filled) && Represents(es, m) && i < |es| && Copied(es[..i], m, copy)
    ensures Copied(es[..i + 1], m, next)
    ensures es[i].state.Legitimate? ==>
      es[i].value !in copy && |copy| < |m| && next == Added(copy, es[i].value, es[i].repeat)
    ensures !es[i].state.Legitimate? ==> next == copy
  {
    assert es[..i + 1] == es[..i] + [es[i]];
    if es[i].state.Legitimate? {
      CopyOne(es, filled, m, copy, i);
      next := Added(copy, es[i].value, es[i].repeat);
    } else {
      CopyNone(es[..i], es[i], m, copy);
      next := copy;
    }
  }

  lemma CopyNone(es: seq<Entry>, e: Entry, m: map<nat, int>, copy: map<nat, int>)
    requires Copied(es, m, copy) && !e.state.Legitimate?
    ensures Copied(es + [e], m, copy)
  {
    forall v | v in copy
      ensures exists i :: 0 <= i < |es + [e]| && (es + [e])[i].state.Legitimate? && (es + [e])[i].value == v
    {
      var i :| 0 <= i < |es| && es[i].state.Legitimate? && es[i].value == v;
      assert (es + [e])[i] == es[i];
    }
  }

  /** `copy` is the part of `m` that the slots `es` hold. */
  ghost predicate Copied(es: seq<Entry>, m: map<nat, int>, copy: map<nat, int>) {
    && copy.Keys <= m.Keys
    && (forall v :: v in copy ==> copy[v] == m[v])
    && (forall v :: v in copy ==> exists i :: 0 <= i < |es| && es[i].state.Legitimate? && es[i].value == v)
    && (forall i :: 0 <= i < |es| && es[i].state.Legitimate? ==> es[i].value in copy)
  }

  /** The next value is new to the copy, which therefore stays smaller than m. */
  lemma CopyOne(es: seq<Entry>, filled: int, m: map<nat, int>, copy: map<nat, int>, i: nat)
    requires Sound(es, filled) && Represents(es, m) && i < |es| && es[i].state.Legitimate?
    requires Copied(es[..i], m, copy)
    ensures es[i].value !in copy && |copy| < |m|
    ensures Copied(es[..i] + [es[i]], m, Added(copy, es[i].value, es[i].repeat))
  {
    var v := es[i].value;
    forall j | 0 <= j < i
      ensures es[..i][j].state.Legitimate? ==> es[..i][j].value != v
    {
      OnePlace(es, filled, j, i);
    }
    SmallerMap(copy, m, v);
    var es', copy' := es[..i] + [es[i]], Added(copy, v, es[i].repeat);
    forall u | u in copy'
      ensures exists j :: 0 <= j < |es'| && es'[j].state.Legitimate? && es'[j].value == u
    {
      if u == v {
        assert es'[i].value == v;
      } else {
        var j :| 0 <= j < i && es[..i][j].state.Legitimate? && es[..i][j].value == u;
        assert es'[j].value == u;
      }
    }
  }

  lemma SmallerMap(copy: map<nat, int>, m: map<nat, int>, v: nat)
    requires copy.Keys <= m.Keys && v in m && v !in copy
    ensures |copy| < |m|
  {
    assert copy.Keys + {v} <= m.Keys;
    assert |copy.Keys + {v}| == |copy| + 1;
    assert m.Keys == (copy.Keys + {v}) + (m.Keys - (copy.Keys + {v}));
  }

  lemma AllCopied(es: seq<Entry>, m: map<nat, int>, copy: map<nat, int>)
    requires Represents(es, m) && Copied(es, m, copy)
    ensures copy == m
  {
    forall v | v in m
      ensures v in copy
    {
      var i :| 0 <= i < |es| && es[i].state.Legitimate? && es[i].value == v;
    }
  }
}
