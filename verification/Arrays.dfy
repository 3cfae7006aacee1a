/** Array.h: growable arrays with value semantics on top of shared handles. */
module Arrays {
  import opened SharedHandles

  /** Static<Array<T>>: a pointer and a length, owning nothing. */
  class Static<T> {
    var m_ptr: array<T>
    var m_len: nat

    constructor (ptr: array<T>, len: nat)
      ensures m_ptr == ptr && m_len == len
    {
      m_ptr, m_len := ptr, len;
    }

    ghost predicate Valid()
      reads this
    {
      m_len <= m_ptr.Length
    }

    ghost function Contents(): seq<T>
      reads this, m_ptr
      requires Valid()
    {
      m_ptr[..m_len]
    }
  }

  ghost predicate Distinct<A>(s: seq<A>) {
    forall i, j | 0 <= i < j < |s| :: s[i] != s[j]
  }

  lemma DistinctAppend<A>(s: seq<A>, x: A)
    ensures Distinct(s + [x]) <==> Distinct(s) && x !in s
  {
    var t := s + [x];
    if Distinct(t) {
      forall i, j | 0 <= i < j < |s| ensures s[i] != s[j] { assert t[i] != t[j]; }
      forall i | 0 <= i < |s| ensures s[i] != x { assert t[i] != t[|s|]; }
    }
  }

  /** All arrays in existence, over one graph of handles. A callback deletes the m_ptr of the array whose `this` it
      captured, as it stands when the callback runs: `released` lists the buffers deleted so far, and `strays` counts
      the callbacks that ran when the array they had captured was already gone. */
  class Arena<T(0)> {
    ghost const graph: Graph
    ghost var arrays: set<Array<T>>
    ghost var released: seq<array<T>>
    ghost var strays: nat

    constructor (ghost graph: Graph)
      requires graph.Valid()
      ensures Valid() && Intact() && arrays == {} && this.graph == graph
    {
      this.graph, arrays := graph, {};
      released, strays := [], 0;
    }

    ghost predicate Valid()
      reads this, graph, graph.handles, graph.blocks, arrays, set a | a in arrays :: a.view
    {
      && graph.Valid()
      && (forall a | a in arrays :: a.base in graph.handles && a.view.Valid())
      && (forall a, b {:trigger PairOk(a, b)} | a in arrays && b in arrays :: PairOk(a, b))
    }

    /** Attached arrays share a buffer exactly when they share a control block, and then also the length. */
    ghost predicate PairOk(a: Array<T>, b: Array<T>)
      reads a.base, b.base, a.view, b.view
    {
      && (a != b ==> a.base != b.base && a.view != b.view)
      && (a.base.ctl != null && b.base.ctl != null ==>
        && (a.base.ctl == b.base.ctl <==> a.view.m_ptr == b.view.m_ptr)
        && (a.base.ctl == b.base.ctl ==> a.view.m_len == b.view.m_len))
    }

    /** Reading through v is defined: its buffer has not been released. */
    ghost predicate Readable(v: Static<T>)
      reads this, v
    {
      v.m_ptr !in released
    }

    /** The array whose `this` the callback dtr captured still exists. */
    ghost predicate Exists(dtr: object)
      reads this
    {
      exists c | c in arrays :: c.view == dtr
    }

    /** The buffer dtr would delete now. */
    ghost function Target(dtr: object): (buffer: array<T>)
      requires Exists(dtr)
      reads this, set c | c in arrays :: c.view
      ensures forall c | c in arrays && c.view == dtr :: c.view.m_ptr == buffer
    {
      var c :| c in arrays && c.view == dtr;
      c.view.m_ptr
    }

    /** Memory is in order: no callback went astray, nothing was deleted twice, every attached array can be read. */
    ghost predicate Intact()
      reads this, set a | a in arrays :: a.base, set a | a in arrays :: a.view
    {
      && strays == 0
      && Distinct(released)
      && (forall a | a in arrays && a.base.ctl != null :: Readable(a.view))
    }

    /** Running dtr while x is being destroyed does damage. */
    ghost predicate Harmful(x: Array<T>, dtr: object)
      reads this, set a | a in arrays :: a.base, set a | a in arrays :: a.view
    {
      || !Exists(dtr)
      || Target(dtr) in released
      || exists a | a in arrays - {x} && a.base.ctl != null :: a.view.m_ptr == Target(dtr)
    }

    /** The destructor of x would do damage: it is the last of its block and its callback is harmful. */
    ghost predicate Harms(x: Array<T>)
      reads this, x.base, x.base.ctl, set a | a in arrays :: a.base, set a | a in arrays :: a.view
    {
      x.base.Sole() && Harmful(x, x.base.m_dtr)
    }

    /** An array that built its own buffer and still has its own callback can always be destroyed. */
    lemma OwnCallbackIsHarmless(x: Array<T>)
      requires Valid() && Intact() && x in arrays && x.base.ctl != null && x.base.m_dtr == x.view
      ensures !Harms(x)
    {
      assert Exists(x.view) && Target(x.view) == x.view.m_ptr;
      forall a | a in arrays - {x} && a.base.ctl != null && x.base.Sole() ensures a.view.m_ptr != x.view.m_ptr {
        assert PairOk(a, x);
        graph.SoleHandle(x.base);
      }
    }

    /** The same with the callback and the buffer of an array that was moved from and not used since. */
    lemma MovedCallbackIsHarmless(x: Array<T>, c: Array<T>)
      requires Valid() && Intact() && x in arrays && x.base.ctl != null
      requires c in arrays && x.base.m_dtr == c.view && c.view.m_ptr == x.view.m_ptr
      ensures !Harms(x)
    {
      assert Exists(c.view) && Target(c.view) == x.view.m_ptr;
      forall a | a in arrays - {x} && a.base.ctl != null && x.base.Sole() ensures a.view.m_ptr != x.view.m_ptr {
        assert PairOk(a, x);
        graph.SoleHandle(x.base);
      }
    }

    /** The last array of a block always does damage if its callback is that of another array still in use, or of one
        that is gone. */
    lemma ForeignCallbackHarms(x: Array<T>)
      requires x in arrays && x.base.Sole() && x.base.m_dtr != x.view
      requires forall c | c in arrays && c.view == x.base.m_dtr :: c.base.ctl != null
      ensures Harms(x)
    {
    }
  }

  /** The two base-class parts of the source's class are the constant fields `base` and `view`. */
  class Array<T(0)> {
    const base: Shared
    const view: Static<T>

    ghost function Contents(): seq<T>
      reads view, view.m_ptr
      requires view.Valid()
    {
      view.Contents()
    }

    /** Enters a newly built array, which is in order with all others, into the arena. */
    ghost method Enter(arena: Arena<T>)
      requires arena.Valid() && this !in arena.arrays && base in arena.graph.handles && view.Valid()
      requires forall a | a in arena.arrays :: arena.PairOk(a, this) && arena.PairOk(this, a)
      modifies arena`arrays
      ensures arena.Valid() && arena.arrays == old(arena.arrays) + {this}
      ensures old(arena.Intact()) && (base.ctl != null ==> arena.Readable(view)) ==> arena.Intact()
    {
      arena.arrays := arena.arrays + {this};
      forall a, b | a in arena.arrays && b in arena.arrays ensures arena.PairOk(a, b) {
        if a != this && b != this { assert old(arena.PairOk(a, b)); }
      }
    }

    /** Array(const Static<Array<T>>&): a deep copy. */
    constructor FromStatic(ghost arena: Arena<T>, other: Static<T>)
      requires arena.Valid() && other.Valid()
      modifies arena`arrays, arena.graph
      ensures arena.Valid() && this !in old(arena.arrays) && arena.arrays == old(arena.arrays) + {this}
      ensures fresh(base) && fresh(view) && fresh(view.m_ptr) && base.Sole() && base.m_dtr == view
      ensures view.m_len == old(other.m_len) && arena.Readable(view)
      ensures old(arena.Readable(other)) ==> Contents() == old(other.Contents())
      ensures old(arena.Intact()) ==> arena.Intact()
    {
      hide Graph.Valid;
      var own := Clone(other);
      view := own;
      base := new Shared.Create(arena.graph, own);
      new;
      forall a, b | a in arena.arrays && b in arena.arrays ensures arena.PairOk(a, b) {
        assert old(arena.PairOk(a, b));
      }
      forall a | a in arena.arrays ensures arena.PairOk(a, this) && arena.PairOk(this, a) {
        assert a.base.ctl != base.ctl && a.view.m_ptr != view.m_ptr;
      }
      assert old(arena.Intact()) ==> arena.Intact() && (base.ctl != null ==> arena.Readable(view));
      Enter(arena);
    }

    /** Array(const Array&). */
    constructor Copy(ghost arena: Arena<T>, other: Array<T>)
      requires arena.Valid() && other in arena.arrays && other.base.ctl != null
      modifies arena`arrays, arena.graph, other.base.ctl
      ensures arena.Valid() && this !in old(arena.arrays) && arena.arrays == old(arena.arrays) + {this}
      ensures fresh(base) && fresh(view) && base.ctl == other.base.ctl && base.m_dtr == other.base.m_dtr
      ensures base.ctl.cnt == old(other.base.ctl.cnt) + 1
      ensures view.m_ptr == other.view.m_ptr && view.m_len == other.view.m_len
      ensures arena.Readable(view) ==> Contents() == other.Contents() == old(other.Contents())
      ensures old(arena.Intact()) ==> arena.Intact()
    {
      hide Graph.Valid;
      base := new Shared.Copy(arena.graph, other.base);
      view := new Static(other.view.m_ptr, other.view.m_len);
      new;
      forall a, b | a in arena.arrays && b in arena.arrays ensures arena.PairOk(a, b) {
        assert old(arena.PairOk(a, b));
      }
      forall a | a in arena.arrays ensures arena.PairOk(a, this) && arena.PairOk(this, a) {
        assert old(arena.PairOk(a, other)) && old(arena.PairOk(other, a));
      }
      assert old(arena.Intact()) ==> arena.Intact() && (base.ctl != null ==> arena.Readable(view));
      Enter(arena);
    }

    /** Array(Array&&): the source keeps its pointer and length but is detached. */
    constructor Move(ghost arena: Arena<T>, other: Array<T>)
      requires arena.Valid() && other in arena.arrays
      modifies arena`arrays, arena.graph, other.base
      ensures arena.Valid() && this !in old(arena.arrays) && arena.arrays == old(arena.arrays) + {this}
      ensures fresh(base) && fresh(view) && base.ctl == old(other.base.ctl) && other.base.ctl == null
      ensures base.m_dtr == old(other.base.m_dtr)
      ensures view.m_ptr == other.view.m_ptr && view.m_len == other.view.m_len
      ensures arena.Readable(view) ==> Contents() == old(other.Contents())
      ensures old(arena.Intact()) ==> arena.Intact()
    {
      hide Graph.Valid;
      base := new Shared.Move(arena.graph, other.base);
      view := new Static(other.view.m_ptr, other.view.m_len);
      new;
      forall a, b | a in arena.arrays && b in arena.arrays ensures arena.PairOk(a, b) {
        assert old(arena.PairOk(a, b));
      }
      forall a | a in arena.arrays ensures arena.PairOk(a, this) && arena.PairOk(this, a) {
        assert old(arena.PairOk(a, other)) && old(arena.PairOk(other, a));
      }
      assert old(arena.Intact()) ==> arena.Intact() && (base.ctl != null ==> arena.Readable(view));
      Enter(arena);
    }

    /** void copy(): a view of one's own on a fresh buffer. */
    static method Clone(src: Static<T>) returns (own: Static<T>)
      requires src.Valid()
      ensures fresh(own) && fresh(own.m_ptr) && own.Valid() && own.Contents() == src.Contents()
    {
      var ptr := CopyInto(src, src.m_len);
      own := new Static(ptr, src.m_len);
    }

    /** T* copy(size_t): a fresh buffer of `len` cells that starts with the elements of a view. */
    static method CopyInto(src: Static<T>, len: nat) returns (ptr: array<T>)
      requires src.Valid() && src.m_len <= len
      ensures fresh(ptr) && ptr.Length == len && ptr[..src.m_len] == src.Contents()
    {
      ptr := new T[len];
      var i := 0;
      while i < src.m_len
        invariant i <= src.m_len && ptr[..i] == src.m_ptr[..i]
      {
        ptr[i] := src.m_ptr[i];
        i := i + 1;
      }
    }

    /** The loop of operator+=: construct the elements of `other` behind the present ones. */
    method Append(ptr: array<T>, other: Static<T>)
      requires view.Valid() && other.Valid() && ptr.Length == view.m_len + other.m_len
      requires ptr != view.m_ptr && ptr != other.m_ptr && ptr[..view.m_len] == Contents()
      modifies ptr
      ensures ptr[..] == Contents() + other.Contents()
    {
      var i := 0;
      while i < other.m_len
        invariant i <= other.m_len && ptr[..view.m_len + i] == Contents() + other.m_ptr[..i]
      {
        ptr[view.m_len + i] := other.m_ptr[i];
        i := i + 1;
      }
    }

    /** The call of `write` in operator+=: it leaves this array alone with its control block. */
    method OwnedCopy(ghost arena: Arena<T>, len: nat) returns (ptr: array<T>)
      requires arena.Valid() && this in arena.arrays && base.ctl != null && view.m_len <= len
      modifies arena.graph`blocks, base, base.ctl
      ensures arena.graph.Valid() && base.Sole() && !base.ctl.cow
      ensures if old(base.Sole()) then base.ctl == old(base.ctl) else fresh(base.ctl)
      ensures fresh(ptr) && ptr.Length == len && ptr[..view.m_len] == Contents()
      ensures forall a | a in arena.arrays && a != this ::
                a.base != base && a.view != view && a.base.ctl == old(a.base.ctl) && a.base.ctl != base.ctl &&
                a.base.m_dtr == old(a.base.m_dtr)
      ensures base.m_dtr == old(base.m_dtr)
    {
      hide Graph.Valid;
      forall a | a in arena.arrays && a != this ensures a.base != base && a.view != view {
        assert arena.PairOk(a, this);
      }
      base.BeginWrite(arena.graph);
      ptr := CopyInto(view, len);
      base.EndWrite(arena.graph);
    }

    /** The new buffer of operator+=, filled. */
    method OwnedConcat(ghost arena: Arena<T>, other: Static<T>) returns (ptr: array<T>)
      requires arena.Valid() && this in arena.arrays && base.ctl != null && other.Valid()
      modifies arena.graph`blocks, base, base.ctl
      ensures arena.graph.Valid() && base.Sole() && !base.ctl.cow
      ensures if old(base.Sole()) then base.ctl == old(base.ctl) else fresh(base.ctl)
      ensures fresh(ptr) && ptr[..] == Contents() + other.Contents()
      ensures forall a | a in arena.arrays && a != this ::
                a.base != base && a.view != view && a.base.ctl == old(a.base.ctl) && a.base.ctl != base.ctl &&
                a.base.m_dtr == old(a.base.m_dtr)
      ensures base.m_dtr == old(base.m_dtr)
    {
      ptr := OwnedCopy(arena, view.m_len + other.m_len);
      Append(ptr, other);
    }

    /** operator+=: `other` may be any view, this very array included. */
    method AddAssign(ghost arena: Arena<T>, other: Static<T>)
      requires arena.Valid() && this in arena.arrays && base.ctl != null && other.Valid()
      modifies arena.graph`blocks, base, base.ctl, view
      ensures arena.Valid() && base.ctl != null
      ensures old(arena.Readable(view)) && old(arena.Readable(other)) ==>
                Contents() == old(Contents()) + old(other.Contents())
      ensures view.m_len == old(view.m_len) + old(other.m_len)
      ensures if old(base.Sole()) then base.ctl == old(base.ctl) else fresh(base.ctl)
      ensures fresh(view.m_ptr) && base.Sole() && !base.ctl.cow && base.m_dtr == old(base.m_dtr)
      ensures forall a | a in arena.arrays && a != this ::
                && a.base.ctl == old(a.base.ctl) && a.base.m_dtr == old(a.base.m_dtr)
                && a.view.m_ptr == old(a.view.m_ptr)
                && (arena.Readable(a.view) ==> a.Contents() == old(a.Contents()))
      ensures old(arena.Intact()) ==> arena.Intact()
    {
      hide Graph.Valid;
      var ptr := OwnedConcat(arena, other);
      view.m_ptr, view.m_len := ptr, view.m_len + other.m_len;
      assert Contents() == ptr[..];
      forall a, b | a in arena.arrays && b in arena.arrays ensures arena.PairOk(a, b) {
        assert old(arena.PairOk(a, b));
      }
    }

    /** Two arrays of one block are not sole. */
    lemma Shares(arena: Arena<T>, other: Array<T>)
      requires arena.Valid() && this in arena.arrays && other in arena.arrays
      requires this != other && base.ctl != null && base.ctl == other.base.ctl
      ensures !base.Sole()
    {
      assert arena.PairOk(this, other);
      arena.graph.SoleHandle(base);
      assert other.base in arena.graph.Attached(base.ctl);
    }

    /** operator+: neither operand changes. */
    method Plus(ghost arena: Arena<T>, other: Static<T>) returns (sum: Array<T>)
      requires arena.Valid() && this in arena.arrays && base.ctl != null && other.Valid()
      modifies arena`arrays, arena.graph, base.ctl
      ensures arena.Valid() && fresh(sum) && arena.arrays == old(arena.arrays) + {sum}
      ensures old(arena.Readable(view)) && old(arena.Readable(other)) ==>
                sum.Contents() == old(Contents()) + old(other.Contents())
      ensures fresh(sum.base) && fresh(sum.view) && fresh(sum.view.m_ptr)
      ensures sum.base.Sole() && fresh(sum.base.ctl) && sum.base.m_dtr == base.m_dtr
      ensures forall a | a in old(arena.arrays) ::
                && a.base.ctl == old(a.base.ctl) && a.base.m_dtr == old(a.base.m_dtr)
                && a.view.m_ptr == old(a.view.m_ptr)
                && (arena.Readable(a.view) ==> a.Contents() == old(a.Contents()))
      ensures old(arena.Intact()) ==> arena.Intact()
    {
      hide Graph.Valid;
      sum := new Array.Copy(arena, this);
      Shares(arena, sum);
      sum.AddAssign(arena, other);
    }

    /** The call of m_dtr: it deletes the buffer of the array it captured, if that still exists. */
    ghost method RunCallback(arena: Arena<T>, dtr: object)
      requires arena.Valid()
      modifies arena`released, arena`strays
      ensures arena.released == old(arena.released) + if arena.Exists(dtr) then [arena.Target(dtr)] else []
      ensures arena.strays == old(arena.strays) + if arena.Exists(dtr) then 0 else 1
    {
      if arena.Exists(dtr) {
        arena.released := arena.released + [arena.Target(dtr)];
      } else {
        arena.strays := arena.strays + 1;
      }
    }

    /** What becomes of memory when this array goes: the callback runs if it is the last of its block. */
    ghost method Leave(arena: Arena<T>)
      requires arena.Valid() && this in arena.arrays
      modifies arena
      ensures arena.arrays == old(arena.arrays) - {this}
      ensures arena.released == old(arena.released) + old(
                if base.Sole() && arena.Exists(base.m_dtr) then [arena.Target(base.m_dtr)] else [])
      ensures arena.strays == old(arena.strays) + old(if base.Sole() && !arena.Exists(base.m_dtr) then 1 else 0)
      ensures old(arena.Intact()) ==> (arena.Intact() <==> !old(arena.Harms(this)))
    {
      if base.Sole() {
        ghost var dtr := base.m_dtr;
        RunCallback(arena, dtr);
        if arena.Exists(dtr) { DistinctAppend(old(arena.released), arena.Target(dtr)); }
      }
      arena.arrays := arena.arrays - {this};
      if old(arena.Intact()) && old(base.Sole() && arena.Exists(base.m_dtr)) {
        ghost var t := old(arena.Target(base.m_dtr));
        ghost var viewed := exists a | a in arena.arrays && a.base.ctl != null :: a.view.m_ptr == t;
        assert arena.Intact() <==> t !in old(arena.released) && !viewed;
      }
    }

    /** ~Array. The callback runs if this was the last array of its block; it is the callback this array inherited, so
        the buffer it deletes need not be this array's. Memory stays in order exactly if it is harmless. */
    method Destroy(ghost arena: Arena<T>)
      requires arena.Valid() && this in arena.arrays
      modifies arena, arena.graph`handles, base, base.ctl
      ensures arena.Valid() && arena.arrays == old(arena.arrays) - {this}
      ensures arena.released == old(arena.released) + old(
                if base.Sole() && arena.Exists(base.m_dtr) then [arena.Target(base.m_dtr)] else [])
      ensures arena.strays == old(arena.strays) + old(if base.Sole() && !arena.Exists(base.m_dtr) then 1 else 0)
      ensures old(arena.Intact()) ==> (arena.Intact() <==> !old(arena.Harms(this)))
      ensures forall a | a in arena.arrays ::
                && a.base.ctl == old(a.base.ctl) && a.base.m_dtr == old(a.base.m_dtr)
                && a.view.m_ptr == old(a.view.m_ptr)
                && (arena.Readable(a.view) ==> a.Contents() == old(a.Contents()))
      ensures old(base.ctl) != null ==>
                && old(base.ctl).ran == old(base.ctl.ran) + old(if base.Sole() then [base.m_dtr] else [])
                && (!old(base.Sole()) ==> old(base.ctl).cnt == old(base.ctl.cnt) - 1)
    {
      hide Graph.Valid;
      forall a | a in arena.arrays && a != this ensures a.base != base {
        assert arena.PairOk(a, this);
      }
      Leave(arena);
      base.Destroy(arena.graph);
    }
  }

  /** `{ Array s = a + b; }`: s has its own block but the callback of a, so the end of the scope deletes the buffer of
      a, which is still in use. */
  method SumOutOfScope<T(0)>(ghost arena: Arena<T>, a: Array<T>, b: Static<T>)
    requires arena.Valid() && a in arena.arrays && a.base.ctl != null && b.Valid()
    requires a.base.m_dtr == a.view
    modifies arena, arena.graph, a.base.ctl
    ensures a in arena.arrays && a.base.ctl != null && !arena.Readable(a.view) && !arena.Intact()
  {
    var s := a.Plus(arena, b);
    assert arena.Exists(a.view) && arena.Target(a.view) == a.view.m_ptr;
    s.Destroy(arena);
  }

  /** A copy that outlives its original: the last callback runs on an array that is gone. */
  method CopyOutlivesOriginal<T(0)>(ghost arena: Arena<T>, a: Array<T>)
    requires arena.Valid() && a in arena.arrays && a.base.Sole() && a.base.m_dtr == a.view
    modifies arena, arena.graph, arena.graph.handles, a.base, a.base.ctl
    ensures arena.strays == old(arena.strays) + 1 && !arena.Intact()
  {
    var d := new Array.Copy(arena, a);
    a.Destroy(arena);
    assert d.base.Sole();
    forall c | c in arena.arrays ensures c.view != d.base.m_dtr {
      if c != d { assert old(arena.PairOk(c, a)); }
    }
    d.Destroy(arena);
  }
}
