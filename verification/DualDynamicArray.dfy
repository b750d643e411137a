/** The class itself: two arrays kept in step, doubled when full and halved when half empty. */
module DualArray {
  import opened Capacity
  import Table

  class DualDynamicArray<T(0), N(0)> {
    var m_size: nat
    var m_cap: nat
    var m_first_array: array<T>
    var m_second_array: array<N>
    const m_compare: (T, T) -> int
    ghost var m_copied: nat

    ghost predicate Valid()
      reads this, m_first_array, m_second_array
    {
      && m_first_array.Length == m_second_array.Length == m_cap
      && m_first_array as object != m_second_array
      && CapInv(Size())
    }

    ghost function Size(): Extent
      reads this
    {
      Extent(m_size, m_cap, m_copied)
    }

    ghost function Footprint(): set<object>
      reads this
    {
      {this, m_first_array, m_second_array}
    }

    /** Both arrays read in parallel. */
    ghost function Contents(): seq<(T, N)>
      reads this, m_first_array, m_second_array
      requires m_size <= m_first_array.Length && m_size <= m_second_array.Length
    {
      seq(m_size, i requires 0 <= i < m_size reads this, m_first_array, m_second_array
                    requires m_size <= m_first_array.Length && m_size <= m_second_array.Length
                    => (m_first_array[i], m_second_array[i]))
    }

    constructor (t_compare: (T, T) -> int)
      ensures Valid() && fresh(Footprint())
      ensures Contents() == [] && Size() == FRESH && m_compare == t_compare
    {
      m_size := 0;
      m_cap := MIN_DDA_SIZE;
      m_first_array := new T[MIN_DDA_SIZE];
      m_second_array := new N[MIN_DDA_SIZE];
      m_compare := t_compare;
      m_copied := 0;
      new;
      assert Legal(16, 0);
    }

    /** Reallocates both arrays at new_cap; shared by grow and shrink, whose loops are the same. */
    method Reallocate(new_cap: nat)
      requires m_size <= m_cap && m_size <= new_cap
      requires m_first_array.Length == m_second_array.Length == m_cap
      modifies this
      ensures fresh(m_first_array) && fresh(m_second_array) && m_first_array as object != m_second_array
      ensures m_first_array.Length == m_second_array.Length == m_cap == new_cap
      ensures m_size == old(m_size) && Contents() == old(Contents())
      ensures m_copied == old(m_copied) + m_size
    {
      var new_first_array := new T[new_cap];
      var new_second_array := new N[new_cap];
      var i := 0;
      while i < m_size
        invariant i <= m_size
        invariant m_copied == old(m_copied) + i
        invariant unchanged(`m_size, `m_cap, `m_first_array, `m_second_array)
        invariant forall j | 0 <= j < i ::
          new_first_array[j] == m_first_array[j] && new_second_array[j] == m_second_array[j]
      {
        new_first_array[i] := m_first_array[i];
        new_second_array[i] := m_second_array[i];
        m_copied := m_copied + 1;
        i := i + 1;
      }
      m_first_array := new_first_array;
      m_second_array := new_second_array;
      m_cap := new_cap;
    }

    method GrowArrays()
      requires Valid()
      modifies this
      ensures m_first_array.Length == m_second_array.Length == m_cap && m_first_array as object != m_second_array
      ensures fresh(Footprint() - old(Footprint()))
      ensures Size() == Grow(old(Size())) && Contents() == old(Contents())
    {
      if m_size + 1 > m_cap {
        Reallocate(2 * m_cap);
      }
    }

    method ShrinkArrays()
      requires m_first_array.Length == m_second_array.Length == m_cap && m_size <= m_cap
      requires m_first_array as object != m_second_array
      modifies this
      ensures m_first_array.Length == m_second_array.Length == m_cap && m_first_array as object != m_second_array
      ensures fresh(Footprint() - old(Footprint()))
      ensures m_size <= m_cap && Size() == Shrink(old(Size())) && Contents() == old(Contents())
    {
      if m_size == m_cap / 2 && m_size > 16 {
        Reallocate(m_cap / 2);
      }
    }

    method Add(t_thing_one: T, t_thing_two: N)
      requires Valid()
      modifies Footprint()
      ensures Valid() && fresh(Footprint() - old(Footprint()))
      ensures Contents() == old(Contents()) + [(t_thing_one, t_thing_two)]
      ensures Size() == AfterAdd(old(Size()))
    {
      CapInvAdd(Size());
      GrowArrays();
      m_first_array[m_size] := t_thing_one;
      m_second_array[m_size] := t_thing_two;
      m_size := m_size + 1;
    }

    method Find(t_thing_one: T) returns (r: int)
      requires Valid()
      ensures r == Table.Find(Contents(), m_compare, t_thing_one)
    {
      var i := 0;
      while i < m_size
        invariant i <= m_size
        invariant forall j | 0 <= j < i :: m_compare(t_thing_one, Contents()[j].0) != 0
      {
        assert Contents()[i].0 == m_first_array[i];
        if m_compare(t_thing_one, m_first_array[i]) == 0 { return i; }
        i := i + 1;
      }
      return -1;
    }

    method SwapOut(index: nat)
      requires m_first_array.Length == m_second_array.Length == m_cap && index < m_size <= m_cap
      requires m_first_array as object != m_second_array
      modifies `m_size, m_first_array, m_second_array
      ensures m_size == old(m_size) - 1
      ensures Contents() == Table.SwapRemove(old(Contents()), index)
    {
      m_first_array[index] := m_first_array[m_size - 1];
      m_second_array[index] := m_second_array[m_size - 1];
      m_size := m_size - 1;
    }

    method Remove(t_thing_one: T)
      requires Valid()
      modifies Footprint()
      ensures Valid() && fresh(Footprint() - old(Footprint()))
      ensures Contents() == Table.Remove(old(Contents()), m_compare, t_thing_one)
      ensures Size() == if old(Table.Find(Contents(), m_compare, t_thing_one)) < 0 then old(Size())
                        else AfterRemove(old(Size()))
    {
      var index := Find(t_thing_one);
      if index != -1 {
        CapInvRemove(Size());
        SwapOut(index);
        ShrinkArrays();
      }
    }

    /** A write through the pointer that getFirstArray hands out. */
    method SetFirst(i: nat, t: T)
      requires Valid() && i < m_size
      modifies m_first_array
      ensures Valid()
      ensures Contents() == old(Contents())[i := (t, old(Contents())[i].1)]
    {
      m_first_array[i] := t;
    }
  }
}
