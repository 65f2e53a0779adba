/** The growable, null-terminated array of strings, changed in place, and the cost of growing it. */
module StringArrayClass {
  import opened Options
  import opened PowersOfTwo

  const NUL: char := '\0'

  /** The C string at the start of a buffer: everything before the first null character. */
  function TextOf(buffer: seq<char>): (s: string)
    ensures |s| <= |buffer| && s == buffer[..|s|] && NUL !in s
    ensures |s| < |buffer| ==> buffer[|s|] == NUL
  {
    if buffer == [] || buffer[0] == NUL then []
    else [buffer[0]] + TextOf(buffer[1..])
  }

  lemma {:induction false} TextOfIsFirst(buffer: seq<char>, s: string)
    requires |s| <= |buffer| && s == buffer[..|s|] && NUL !in s
    requires |s| < |buffer| ==> buffer[|s|] == NUL
    ensures TextOf(buffer) == s
  {
    if s != [] {
      assert buffer[0] == s[0];
      TextOfIsFirst(buffer[1..], s[1..]);
      assert s == [s[0]] + s[1..];
    }
  }

  /** The text `add_string` copies: up to the first null character, at most n characters. */
  function Copied(source: seq<char>, n: nat): string {
    TextOf(if n <= |source| then source[..n] else source)
  }

  // ----- growth -----

  /** Size, capacity, and how many strings all resizes together have moved. */
  datatype Growth = Growth(size: nat, capacity: nat, moved: nat)

  function AddOne(g: Growth): Growth {
    if g.size == g.capacity then
      Growth(g.size + 1, if g.capacity != 0 then g.capacity * 2 else 1, g.moved + g.size)
    else Growth(g.size + 1, g.capacity, g.moved)
  }

  function AddMany(capacity: nat, n: nat): Growth {
    if n == 0 then Growth(0, capacity, 0) else AddOne(AddMany(capacity, n - 1))
  }

  /** Amortised cost: n additions to a new array never leave more than half of a grown array unused,
      and move at most 2n strings in all. */
  lemma {:induction false} GrowthIsAmortised(capacity: nat, n: nat)
    ensures var g := AddMany(capacity, n);
            && g.size == n <= g.capacity
            && (g.capacity == capacity || g.capacity <= 2 * n)
            && (capacity > 0 ==> g.moved == g.capacity - capacity)
            && g.moved <= 2 * n
            && (g.capacity == capacity ==> g.moved == 0)
            && g.moved <= g.capacity
  {
    if n > 0 {
      GrowthIsAmortised(capacity, n - 1);
    }
  }

  function FirstStep(capacity: nat): nat {
    if capacity == 0 then 1 else capacity
  }

  /** The initial capacity, or 1 for an empty array, doubled k times. */
  function Doubled(capacity: nat, k: nat): nat {
    if k == 0 then FirstStep(capacity) else 2 * Doubled(capacity, k - 1)
  }

  lemma {:induction false} DoubledIsProduct(capacity: nat, k: nat)
    ensures Doubled(capacity, k) == FirstStep(capacity) * Pow2(k)
  {
    if k > 0 {
      DoubledIsProduct(capacity, k - 1);
      DoubleProduct(FirstStep(capacity), Pow2(k - 1), Pow2(k));
    }
  }

  lemma DoubleProduct(b: nat, p: nat, q: nat)
    requires q == 2 * p
    ensures 2 * (b * p) == b * q
  {
  }

  /** The initial capacity while it suffices for n strings; then the first of its doublings that does. */
  predicate IsCapacity(initial: nat, n: nat, k: nat, capacity: nat) {
    if n <= initial then capacity == initial
    else
      && capacity == Doubled(initial, k) && n <= capacity
      && (k > 0 ==> Doubled(initial, k - 1) < n)
  }

  lemma CapacityStep(initial: nat, k: nat, g: Growth) returns (k': nat)
    requires g.size <= g.capacity && IsCapacity(initial, g.size, k, g.capacity)
    ensures IsCapacity(initial, g.size + 1, k', AddOne(g).capacity)
  {
    if g.size == initial {
      k' := if initial == 0 then 0 else 1;
      assert Doubled(initial, 0) == FirstStep(initial);
    } else {
      k' := if g.size == g.capacity then k + 1 else k;
    }
  }

  lemma {:induction false} CapacityByDoubling(initial: nat, n: nat) returns (k: nat)
    ensures IsCapacity(initial, n, k, AddMany(initial, n).capacity)
  {
    if n == 0 {
      k := 0;
    } else {
      k := CapacityByDoubling(initial, n - 1);
      GrowthIsAmortised(initial, n - 1);
      k := CapacityStep(initial, k, AddMany(initial, n - 1));
    }
  }

  class StringArray {
    var strings: array<Option<string>>
    var size: nat
    var capacity: nat
    ghost var contents: seq<string>
    ghost var moved: nat  // strings moved by resizes

    /** The strings, then the null sentinel, in an array with one slot more than the capacity. */
    ghost predicate Valid()
      reads this, strings
    {
      && size == |contents| <= capacity
      && strings.Length == capacity + 1
      && (forall i :: 0 <= i < size ==> strings[i] == Some(contents[i]))
      && strings[size] == None
    }

    ghost function Cost(): Growth
      reads this
    {
      Growth(size, capacity, moved)
    }

    /** `make_string_array` */
    constructor (capacity: nat)
      ensures Valid() && fresh(strings) && contents == []
      ensures Cost() == Growth(0, capacity, 0)
    {
      size := 0;
      this.capacity := capacity;
      strings := new Option<string>[capacity + 1];
      contents := [];
      moved := 0;
      new;
      strings[0] := None;
    }

    /** Drops the strings beyond the new capacity and moves the others to a new array. */
    method Resize(newCapacity: nat)
      requires Valid()
      modifies this, strings
      ensures Valid() && fresh(strings)
      ensures capacity == newCapacity
      ensures contents == if newCapacity < |old(contents)| then old(contents)[..newCapacity] else old(contents)
      ensures moved == old(moved) + |contents|
    {
      if newCapacity < size {
        size := newCapacity;
        contents := contents[..newCapacity];
      }
      var kept := if newCapacity < capacity then newCapacity + 1 else capacity + 1;
      var slots := new Option<string>[newCapacity + 1];
      for i := 0 to kept
        modifies slots
        invariant forall j :: 0 <= j < i ==> slots[j] == strings[j]
      {
        slots[i] := strings[i];
      }
      capacity := newCapacity;
      strings := slots;
      strings[capacity] := None;
      moved := moved + size;
    }

    /** Copies up to n characters of a C string into a new buffer and terminates it. */
    method CopyText(source: seq<char>, n: nat) returns (buffer: array<char>)
      requires n <= |source| || NUL in source
      ensures fresh(buffer) && TextOf(buffer[..]) == Copied(source, n)
    {
      buffer := new char[n + 1];
      var i := 0;
      while i < n
        invariant 0 <= i <= n && i <= |source|
        invariant buffer[..i] == source[..i] && NUL !in source[..i]
      {
        buffer[i] := source[i];
        if source[i] == NUL {
          break;
        }
        i := i + 1;
      }
      buffer[n] := NUL;
      ghost var text := source[..i];
      TextOfIsFirst(buffer[..], text);
      TextOfIsFirst(if n <= |source| then source[..n] else source, text);
    }

    /** Appends a copy of the string, doubling the capacity of a full array first. */
    method AddString(source: seq<char>, n: nat)
      requires Valid() && (n <= |source| || NUL in source)
      modifies this, strings
      ensures Valid() && (strings == old(strings) || fresh(strings))
      ensures contents == old(contents) + [Copied(source, n)]
      ensures Cost() == AddOne(old(Cost()))
    {
      if size == capacity {
        Resize(if capacity != 0 then capacity * 2 else 1);
      }
      var buffer := CopyText(source, n);
      var text := TextOf(buffer[..]);
      strings[size] := Some(text);
      size := size + 1;
      strings[size] := None;
      contents := contents + [text];
    }
  }
}
