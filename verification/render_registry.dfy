/**
  The window's render-callback registry: `add_render_callback` hands out a handle from a
  counter shared by every window (a function-local `static int`) and stores the callback
  under it in a `std::map`; `remove_render_callback` takes it out again; each frame of
  `render_loop` calls the stored callbacks in the map's order, that is by ascending handle.
  The callback type is a parameter `C`: what a callback does when it is called is not part
  of the model, only which callbacks are called and in what order.
 */
module RenderRegistry {

  datatype Option<T> = None | Some(value: T)

  /** The `static int index` of `add_render_callback`, one for the whole program. */
  class HandleCounter {
    var next: int

    constructor ()
      ensures next == 0
    {
      next := 0;
    }
  }

  /** The smallest element of a non-empty set of handles. */
  ghost function Least(s: set<int>): (m: int)
    requires s != {}
    ensures m in s && forall x | x in s :: m <= x
  {
    LeastExists(s);
    var m :| m in s && forall x | x in s :: m <= x;
    m
  }

  /** A set other than the empty one has an element. */
  lemma Inhabited(s: set<int>)
    requires s != {}
    ensures exists x :: x in s
  {
    assert (forall x :: x !in s) ==> s == {};
  }

  lemma {:induction false} LeastExists(s: set<int>)
    requires s != {}
    ensures exists m :: m in s && forall x | x in s :: m <= x
    decreases |s|
  {
    Inhabited(s);
    var y :| y in s;
    if s != {y} {
      LeastExists(s - {y});
      var m :| m in s - {y} && forall x | x in s - {y} :: m <= x;
      var least := if y < m then y else m;
      forall x | x in s
        ensures least <= x
      {
        if x != y {
          assert x in s - {y};
        }
      }
      assert least in s;
    } else {
      forall x | x in s
        ensures y <= x
      {
        assert x in {y};
      }
    }
  }

  /** The handles of a map in the order `std::map` visits them: ascending. */
  ghost function Ascending(s: set<int>): seq<int>
    decreases |s|
  {
    if s == {} then [] else var m := Least(s); [m] + Ascending(s - {m})
  }

  /**
    The visiting order is strictly increasing and holds every handle of the map, and
    nothing else: each stored callback is visited exactly once.
   */
  lemma {:induction false} AscendingIsSorted(s: set<int>)
    ensures forall i, j | 0 <= i < j < |Ascending(s)| :: Ascending(s)[i] < Ascending(s)[j]
    ensures forall x :: x in s <==> x in Ascending(s)
    ensures |Ascending(s)| == |s|
    decreases |s|
  {
    if s != {} {
      var m := Least(s);
      var rest := Ascending(s - {m});
      AscendingIsSorted(s - {m});
      assert Ascending(s) == [m] + rest;
      forall i, j | 0 <= i < j < |Ascending(s)|
        ensures Ascending(s)[i] < Ascending(s)[j]
      {
        if i == 0 {
          assert rest[j - 1] in s - {m};
        } else {
          assert Ascending(s)[i] == rest[i - 1] && Ascending(s)[j] == rest[j - 1];
        }
      }
    }
  }

  /** A window, for the part of it that holds the render callbacks. */
  class Window<C> {
    /** `m_render_callbacks`. */
    var callbacks: map<int, C>
    /** The counter every window shares. */
    const counter: HandleCounter

    /** Every stored handle was issued before the counter's current value. */
    ghost predicate Valid()
      reads this, counter
    {
      forall h | h in callbacks :: h < counter.next
    }

    constructor (counter: HandleCounter)
      ensures this.counter == counter && callbacks == map[]
      ensures Valid()
    {
      this.counter := counter;
      callbacks := map[];
    }

    /**
      `add_render_callback`: the handle is the counter's value, the counter moves on, and
      `emplace` stores the callback unless the handle is already taken. In a valid window it
      never is, so the callback is always stored, next to the unchanged old entries.
     */
    method AddRenderCallback(callback: C) returns (handle: int)
      modifies this, counter
      ensures handle == old(counter.next) && counter.next == handle + 1
      ensures callbacks == if handle in old(callbacks) then old(callbacks) else old(callbacks)[handle := callback]
      ensures old(Valid()) ==> handle !in old(callbacks) && callbacks == old(callbacks)[handle := callback] && Valid()
    {
      handle := counter.next;
      counter.next := counter.next + 1;
      if handle !in callbacks {
        callbacks := callbacks[handle := callback];
      }
    }

    /**
      `remove_render_callback`: an unknown handle gives the empty callback and changes
      nothing; a known one gives back its callback and only its entry is erased.
     */
    method RemoveRenderCallback(handle: int) returns (removed: Option<C>)
      modifies this
      ensures handle !in old(callbacks) ==> removed == None && callbacks == old(callbacks)
      ensures handle in old(callbacks) ==>
                removed == Some(old(callbacks)[handle]) && callbacks == old(callbacks) - {handle}
      ensures old(Valid()) ==> Valid()
    {
      if handle !in callbacks {
        return None;
      }
      removed := Some(callbacks[handle]);
      callbacks := callbacks - {handle};
    }

    /**
      One frame's `for (auto &[key, render_callback] : m_render_callbacks)`: the handles in
      the order they are visited, and the callback called at each step.
     */
    method RenderFrame() returns (visited: seq<int>, calls: seq<C>)
      ensures visited == Ascending(callbacks.Keys)
      ensures |calls| == |visited|
      ensures forall i | 0 <= i < |visited| :: visited[i] in callbacks && calls[i] == callbacks[visited[i]]
    {
      var remaining := callbacks.Keys;
      visited, calls := [], [];
      while remaining != {}
        invariant remaining <= callbacks.Keys
        invariant visited + Ascending(remaining) == Ascending(callbacks.Keys)
        invariant |calls| == |visited|
        invariant forall i | 0 <= i < |visited| :: visited[i] in callbacks && calls[i] == callbacks[visited[i]]
        decreases |remaining|
      {
        var key := Smallest(remaining);
        assert Ascending(remaining) == [key] + Ascending(remaining - {key});
        visited, calls := visited + [key], calls + [callbacks[key]];
        remaining := remaining - {key};
      }
    }
  }

  /** The next handle in the map's order: its smallest remaining key. */
  method Smallest(s: set<int>) returns (m: int)
    requires s != {}
    ensures m == Least(s)
  {
    Inhabited(s);
    m :| m in s;
    var rest := s - {m};
    while rest != {}
      invariant m in s && rest <= s
      invariant forall x | x in s - rest :: m <= x
      decreases |rest|
    {
      Inhabited(rest);
      var x :| x in rest;
      var m' := if x < m then x else m;
      forall z | z in s - (rest - {x})
        ensures m' <= z
      {
        if z != x {
          assert z in s - rest;
        }
      }
      m, rest := m', rest - {x};
    }
    forall z | z in s
      ensures m <= z
    {
      assert z in s - rest;
    }
  }

  /**
    Two windows share the counter, so handles are unique across windows: a callback added
    to one and then one added to another get different handles, and both are stored.
   */
  method AddToTwoWindows<C>(w1: Window<C>, w2: Window<C>, c1: C, c2: C) returns (h1: int, h2: int)
    requires w1 != w2 && w1.counter == w2.counter && w1.Valid() && w2.Valid()
    modifies w1, w2, w1.counter
    ensures h1 != h2 && h1 < h2
    ensures h1 in w1.callbacks && w1.callbacks[h1] == c1
    ensures h2 in w2.callbacks && w2.callbacks[h2] == c2
    ensures w1.Valid() && w2.Valid()
  {
    h1 := w1.AddRenderCallback(c1);
    h2 := w2.AddRenderCallback(c2);
  }
}
