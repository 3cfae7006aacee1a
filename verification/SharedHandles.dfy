/** Shared.h: reference-counted, copy-on-write handles. */
module SharedHandles {

  /** The pair of cells a family of handles shares: *m_cnt and *m_cow. `deleted` records the delete of both cells and
      `ran` the callbacks called on behalf of this block, each named by the object it captured. */
  class Control {
    var cnt: nat
    var cow: bool
    ghost var deleted: bool
    ghost var ran: seq<object>

    constructor ()
      ensures cnt == 1 && !cow && !deleted && ran == []
    {
      cnt, cow := 1, false;
      deleted, ran := false, [];
    }

    /** What one unref does to the block: the last one deletes it and runs the callback of the handle that leaves. */
    twostate predicate Released(dtr: object)
      reads this
    {
      && cow == old(cow)
      && Dropped(old(cnt), old(deleted), |old(ran)|, cnt, deleted, |ran|)
      && ran == old(ran) + if old(cnt) == 1 then [dtr] else []
    }
  }

  /** The numbers of a block agree with the handles that use it. */
  ghost predicate Accounted(users: set<Shared>, cnt: nat, cow: bool, deleted: bool, fired: nat) {
    && (deleted <==> users == {})
    && (!deleted ==> cnt == |users|)
    && (|users| >= 2 ==> cow)
    && fired == if deleted then 1 else 0
  }

  ghost function Users(links: map<Shared, Control?>, b: Control): set<Shared> {
    set h | h in links && links[h] == b
  }

  /** How the users of a block change when h is turned from p to q. */
  lemma Relinked(links: map<Shared, Control?>, h: Shared, q: Control?, b: Control)
    requires h in links
    ensures var before, after, p := Users(links, b), Users(links[h := q], b), links[h];
            && (b == p ==> h in before) && (b != p ==> h !in before)
            && after == if p == q then before else if b == p then before - {h}
                        else if b == q then before + {h} else before
  {
  }

  lemma OneLeaves(users: set<Shared>, h: Shared, cnt: nat, cow: bool)
    requires h in users && Accounted(users, cnt, cow, false, 0)
    ensures if cnt == 1 then Accounted(users - {h}, cnt, cow, true, 1)
            else cnt > 1 && Accounted(users - {h}, cnt - 1, cow, false, 0)
  {
    assert |users - {h}| == |users| - 1;
  }

  lemma OneJoins(users: set<Shared>, h: Shared, cnt: nat, cow: bool)
    requires h !in users && users != {} && Accounted(users, cnt, cow, false, 0)
    ensures Accounted(users + {h}, cnt + 1, true, false, 0)
  {
  }

  lemma OneReplaces(users: set<Shared>, o: Shared, h: Shared, cnt: nat, cow: bool)
    requires o in users && h !in users && Accounted(users, cnt, cow, false, 0)
    ensures Accounted(users - {o} + {h}, cnt, cow, false, 0)
  {
  }

  /** What one unref does to the numbers of a block. */
  ghost predicate Dropped(cnt: nat, deleted: bool, fired: nat, cnt': nat, deleted': bool, fired': nat) {
    if cnt == 1 then cnt' == cnt && deleted' && fired' == fired + 1
    else cnt' == cnt - 1 && deleted' == deleted && fired' == fired
  }

  /** One copy assignment, h := a user of q, seen from any block b that is still alive. */
  lemma AssignKeepsAccounts(links: map<Shared, Control?>, h: Shared, q: Control, b: Control,
                            cnt: nat, cow: bool, cnt': nat, cow': bool, deleted': bool, fired': nat)
    requires h in links && Users(links, q) != {} && (b == q == links[h] ==> cnt > 1)
    requires Accounted(Users(links, b), cnt, cow, false, 0)
    requires if b == links[h] && b != q then Dropped(cnt, false, 0, cnt', deleted', fired') && cow' == cow
             else !deleted' && fired' == 0 &&
                  if b == q then cow' && cnt' == (if b == links[h] then cnt else cnt + 1)
                  else cnt' == cnt && cow' == cow
    ensures Accounted(Users(links[h := q], b), cnt', cow', deleted', fired')
  {
    var before := Users(links, b);
    Relinked(links, h, q, b);
    if b == links[h] && b != q {
      OneLeaves(before, h, cnt, cow);
    } else if b == q && b != links[h] {
      OneJoins(before, h, cnt, cow);
    }
  }

  /** One move, h := o and o := null, seen from any block b. */
  lemma MoveKeepsAccounts(links: map<Shared, Control?>, h: Shared, o: Shared, b: Control, cow: bool,
                          cnt: nat, deleted: bool, fired: nat, cnt': nat, deleted': bool, fired': nat)
    requires h in links && o in links && Accounted(Users(links, b), cnt, cow, deleted, fired)
    requires if b == links[h] then Dropped(cnt, deleted, fired, cnt', deleted', fired')
             else cnt' == cnt && deleted' == deleted && fired' == fired
    ensures Accounted(Users(links[h := links[o]][o := null], b), cnt', cow, deleted', fired')
  {
    var before, p, q := Users(links, b), links[h], links[o];
    Relinked(links, h, q, b);
    Relinked(links[h := q], o, null, b);
    if b == p {
      OneLeaves(before, if p == q then o else h, cnt, cow);
    } else if b == q {
      assert Users(links[h := q][o := null], b) == before - {o} + {h};
      OneReplaces(before, o, h, cnt, cow);
    }
  }

  /** The end of a handle h, seen from any block b: its callback runs for the block whose only user it was. */
  lemma LeaveKeepsAccounts(links: map<Shared, Control?>, h: Shared, b: Control, cow: bool,
                           cnt: nat, deleted: bool, fired: nat, cnt': nat, deleted': bool, fired': nat)
    requires h in links && Accounted(Users(links, b), cnt, cow, deleted, fired)
    requires if b == links[h] then Dropped(cnt, deleted, fired, cnt', deleted', fired')
             else cnt' == cnt && deleted' == deleted && fired' == fired
    ensures Accounted(Users(links - {h}, b), cnt', cow, deleted', fired')
    ensures Users(links, b) == {h} <==> b == links[h] && cnt == 1
  {
    var before := Users(links, b);
    if b == links[h] {
      assert h in before && Users(links - {h}, b) == before - {h};
      OneLeaves(before, h, cnt, cow);
      assert |before - {h}| == |before| - 1;
      if cnt == 1 { assert before - {h} == {}; }
    } else {
      assert h !in before && Users(links - {h}, b) == before;
    }
  }

  /** All handles in existence and all blocks ever created. */
  class Graph {
    ghost var handles: set<Shared>
    ghost var blocks: set<Control>

    constructor ()
      ensures Valid() && handles == {} && blocks == {}
    {
      handles, blocks := {}, {};
    }

    /** Where every handle points. */
    ghost function Links(): map<Shared, Control?>
      reads this, handles
    {
      map h | h in handles :: h.ctl
    }

    ghost function Attached(b: Control): set<Shared>
      reads this, handles
    {
      Users(Links(), b)
    }

    /** A block lives exactly as long as it has handles; it counts them; it is flagged as soon as there are two; its
        destructor callback has run once if it is gone and never otherwise. */
    ghost predicate BlockOk(b: Control)
      reads this, handles, b
    {
      Accounted(Attached(b), b.cnt, b.cow, b.deleted, |b.ran|)
    }

    ghost predicate Valid()
      reads this, handles, blocks
    {
      && (forall h | h in handles && h.ctl != null :: h.ctl in blocks)
      && (forall b | b in blocks :: BlockOk(b))
    }

    /** A callback runs for a block when its last handle leaves, and at no other time; it is `dtr`. */
    twostate predicate FiresForTheLastOnly(dtr: object)
      reads this, handles, blocks
    {
      forall b | b in old(blocks) && old(allocated(b)) :: b in blocks &&
        b.ran == old(b.ran) + if old(Attached(b)) != {} && Attached(b) == {} then [dtr] else []
    }

    /** Nothing happened to the handles in `others`. */
    twostate predicate Untouched(others: set<Shared>)
      reads others
    {
      forall h | h in others && old(allocated(h)) :: h.ctl == old(h.ctl) && h.m_dtr == old(h.m_dtr)
    }

    /** No handle points to a deleted block, and a count of one means nobody else points there. */
    lemma SoleHandle(h: Shared)
      requires Valid() && h in handles && h.ctl != null
      ensures !h.ctl.deleted && h.ctl.cnt >= 1
      ensures h.ctl.cnt == 1 <==> Attached(h.ctl) == {h}
      ensures h.ctl.cnt == 1 ==> forall k | k in handles && k != h :: k.ctl != h.ctl
    {
      var a := Attached(h.ctl);
      assert forall k | k in handles && k.ctl == h.ctl :: k in a;
      assert h in a;
      assert |a - {h}| == |a| - 1;
      if |a| == 1 {
        assert a - {h} == {};
        assert a == {h};
      }
    }
  }

  /** `m_dtr` is the callback of the handle, named by the object its closure captured. */
  class Shared {
    var ctl: Control?
    var m_dtr: object

    ghost predicate Attachable()
      reads this, ctl
    {
      ctl != null ==> !ctl.deleted && ctl.cnt >= 1
    }

    /** This handle is the only one of its block. */
    ghost predicate Sole()
      reads this, ctl
    {
      ctl != null && ctl.cnt == 1
    }

    method Last() returns (r: bool)
      requires Attachable()
      ensures r <==> ctl != null && ctl.cnt == 1
    {
      r := ctl != null && ctl.cnt == 1;
    }

    /** Drops this handle's share. When others keep the block the pointer is left behind, still naming it. */
    method Unref()
      requires Attachable()
      modifies this, ctl
      ensures old(ctl) == null ==> ctl == null
      ensures old(ctl) != null ==> old(ctl).Released(old(m_dtr)) && ctl == if old(ctl.cnt) == 1 then null else old(ctl)
      ensures m_dtr == old(m_dtr)
    {
      var last := Last();
      if last {
        ghost var b := ctl;
        b.deleted := true;
        ctl := null;
        b.ran := b.ran + [m_dtr];
      } else if ctl != null {
        ctl.cnt := ctl.cnt - 1;
      }
    }

    /** Whether `other` still has its block once operator=(const Shared&) has dropped this handle's share: `ref` reads
        through it next. It fails for a detached source and for the self-assignment of a sole handle, and only then. */
    method SourceSurvives(other: Shared) returns (yes: bool)
      requires Attachable() && other.Attachable()
      modifies this, ctl
      ensures yes <==> old(other.ctl) != null && (other == this ==> old(ctl.cnt) > 1)
    {
      Unref();
      yes := other.ctl != null;
    }

    /** The statements of operator=(const Shared&), with their effect on the two blocks at hand. */
    method Follow(other: Shared)
      requires Attachable() && other.Attachable() && other.ctl != null
      requires other == this ==> ctl.cnt > 1
      requires other.ctl == ctl && other != this ==> ctl.cnt > 1
      modifies this, ctl, other.ctl
      ensures ctl == old(other.ctl) && other.ctl == old(other.ctl) && ctl.cow
      ensures m_dtr == old(other.m_dtr) && other.m_dtr == old(other.m_dtr)
      ensures ctl.deleted == old(other.ctl.deleted) && ctl.ran == old(other.ctl.ran)
      ensures if ctl == old(ctl) then ctl.cnt == old(ctl.cnt)
              else ctl.cnt == old(other.ctl.cnt) + 1 && (old(ctl) != null ==> old(ctl).Released(old(m_dtr)))
    {
      Unref();
      ctl := other.ctl;
      m_dtr := other.m_dtr;
      ctl.cnt := ctl.cnt + 1;
      ctl.cow := true;
    }

    /** The statements of operator=(Shared&&). */
    method TakeOver(other: Shared)
      requires Attachable()
      modifies this, ctl, other
      ensures other.ctl == null && (this != other ==> ctl == old(other.ctl))
      ensures m_dtr == old(other.m_dtr) && other.m_dtr == old(other.m_dtr)
      ensures old(ctl) != null ==> old(ctl).Released(old(m_dtr))
    {
      Unref();
      ctl := other.ctl;
      m_dtr := other.m_dtr;
      other.ctl := null;
    }

    /** unref and create, the last statements of `write`. */
    method Renew()
      requires Attachable() && ctl != null && ctl.cnt > 1
      modifies this, ctl
      ensures ctl != null && fresh(ctl) && ctl.cnt == 1 && !ctl.cow && !ctl.deleted && ctl.ran == []
      ensures m_dtr == old(m_dtr) && old(ctl).Released(old(m_dtr))
    {
      Unref();
      ctl := new Control();
    }

    constructor Create(ghost g: Graph, dtr: object)
      requires g.Valid()
      modifies g
      ensures g.Valid() && this !in old(g.handles) && g.handles == old(g.handles) + {this}
      ensures Sole() && fresh(ctl) && g.Attached(ctl) == {this} && !ctl.cow && m_dtr == dtr
      ensures g.blocks == old(g.blocks) + {ctl}
    {
      m_dtr := dtr;
      ctl := new Control();
      new;
      g.handles := g.handles + {this};
      g.blocks := g.blocks + {ctl};
      assert g.Attached(ctl) == {this};
      forall b | b in old(g.blocks) ensures g.BlockOk(b) {
        assert g.Attached(b) == old(g.Attached(b));
      }
    }

    /** operator=(const Shared&). Assigning a handle to itself is fine unless it is the only one of its block: then
        unref has deleted the block before ref reads it. */
    method Assign(ghost g: Graph, other: Shared)
      requires g.Valid() && this in g.handles && other in g.handles
      requires other.ctl != null
      requires other == this ==> ctl.cnt > 1
      modifies this, ctl, other.ctl
      ensures g.Valid() && g.FiresForTheLastOnly(old(m_dtr))
      ensures ctl == old(other.ctl) && ctl.cow && m_dtr == old(other.m_dtr)
      ensures ctl.cnt == old(other.ctl.cnt) + if old(ctl) == ctl then 0 else 1
      ensures g.Untouched(g.handles - {this})
    {
      g.SoleHandle(other);
      if ctl != null { g.SoleHandle(this); }
      ghost var q := other.ctl;
      Follow(other);
      assert g.Links() == old(g.Links())[this := q];
      forall b | b in g.blocks ensures g.BlockOk(b) {
        if old(b.deleted) {
          Relinked(old(g.Links()), this, q, b);
        } else {
          AssignKeepsAccounts(old(g.Links()), this, q, b, old(b.cnt), old(b.cow), b.cnt, b.cow, b.deleted, |b.ran|);
        }
      }
    }

    /** Shared(const Shared&). */
    constructor Copy(ghost g: Graph, other: Shared)
      requires g.Valid() && other in g.handles && other.ctl != null
      modifies g, other.ctl
      ensures g.Valid() && this !in old(g.handles) && g.handles == old(g.handles) + {this}
      ensures g.blocks == old(g.blocks) && g.FiresForTheLastOnly(old(other.m_dtr))
      ensures ctl == other.ctl && other.ctl == old(other.ctl) && ctl.cow && m_dtr == other.m_dtr
      ensures ctl.cnt == old(other.ctl.cnt) + 1
    {
      m_dtr := other.m_dtr;
      ctl := null;
      new;
      g.handles := g.handles + {this};
      forall b | b in g.blocks ensures g.Attached(b) == old(g.Attached(b)) {}
      Assign(g, other);
    }

    /** operator=(Shared&&). Works for detached sources and even for self-assignment, which detaches the handle. */
    method MoveAssign(ghost g: Graph, other: Shared)
      requires g.Valid() && this in g.handles && other in g.handles
      modifies this, ctl, other
      ensures g.Valid() && g.FiresForTheLastOnly(old(m_dtr))
      ensures m_dtr == old(other.m_dtr) && other.m_dtr == old(other.m_dtr)
      ensures other.ctl == null && (this != other ==> ctl == old(other.ctl))
      ensures g.Untouched(g.handles - {this, other})
    {
      if ctl != null { g.SoleHandle(this); }
      ghost var q := other.ctl;
      TakeOver(other);
      assert g.Links() == old(g.Links())[this := q][other := null];
      forall b | b in g.blocks ensures g.BlockOk(b) {
        MoveKeepsAccounts(old(g.Links()), this, other, b, b.cow, old(b.cnt), old(b.deleted), |old(b.ran)|,
                          b.cnt, b.deleted, |b.ran|);
      }
    }

    constructor Move(ghost g: Graph, other: Shared)
      requires g.Valid() && other in g.handles
      modifies g, other
      ensures g.Valid() && this !in old(g.handles) && g.handles == old(g.handles) + {this}
      ensures g.blocks == old(g.blocks) && g.FiresForTheLastOnly(old(other.m_dtr))
      ensures ctl == old(other.ctl) && other.ctl == null && m_dtr == other.m_dtr == old(other.m_dtr)
    {
      m_dtr := other.m_dtr;
      ctl := null;
      new;
      g.handles := g.handles + {this};
      forall b | b in g.blocks ensures g.Attached(b) == old(g.Attached(b)) {}
      MoveAssign(g, other);
    }

    /** The part of `write` before the caller's copy: a sole owner need not copy on write any more. */
    method BeginWrite(ghost g: Graph)
      requires g.Valid() && this in g.handles && ctl != null
      modifies ctl
      ensures g.Valid() && ctl.cow == (ctl.cnt > 1)
      ensures ctl.cnt == old(ctl.cnt) && ctl.ran == old(ctl.ran) && ctl.deleted == old(ctl.deleted)
    {
      g.SoleHandle(this);
      var last := Last();
      if last {
        ctl.cow := false;
      }
    }

    /** The part after it: leave a shared block to the others and start one of one's own. */
    method EndWrite(ghost g: Graph)
      requires g.Valid() && this in g.handles && ctl != null && ctl.cow == (ctl.cnt > 1)
      modifies g`blocks, this, ctl
      ensures g.Valid()
      ensures ctl != null && ctl.cnt == 1 && !ctl.cow && g.Attached(ctl) == {this}
      ensures m_dtr == old(m_dtr) && if old(ctl.cnt) == 1 then ctl == old(ctl) else fresh(ctl)
      ensures g.Untouched(g.handles - {this})
      ensures forall h | h in g.handles && h != this :: h.ctl != ctl
      ensures forall b | b in old(g.blocks) :: b in g.blocks && b.ran == old(b.ran)
    {
      g.SoleHandle(this);
      if ctl.cow {
        Renew();
        g.blocks := g.blocks + {ctl};
        assert g.Attached(ctl) == {this};
        assert g.Links() == old(g.Links())[this := ctl];
        forall b | b in old(g.blocks) ensures g.BlockOk(b) {
          assert g.Attached(b) == Users(old(g.Links()) - {this}, b);
          LeaveKeepsAccounts(old(g.Links()), this, b, b.cow, old(b.cnt), old(b.deleted), |old(b.ran)|,
                             b.cnt, b.deleted, |b.ran|);
        }
      }
      g.SoleHandle(this);
    }

    /** `write` as a whole, for a copy callback that does not touch the graph. */
    method Write(ghost g: Graph)
      requires g.Valid() && this in g.handles && ctl != null
      modifies g`blocks, this, ctl
      ensures g.Valid()
      ensures ctl != null && ctl.cnt == 1 && !ctl.cow && g.Attached(ctl) == {this}
      ensures m_dtr == old(m_dtr) && if old(ctl.cnt) == 1 then ctl == old(ctl) else fresh(ctl)
      ensures g.Untouched(g.handles - {this})
      ensures forall h | h in g.handles && h != this :: h.ctl != ctl
      ensures forall b | b in old(g.blocks) :: b in g.blocks && b.ran == old(b.ran)
    {
      BeginWrite(g);
      EndWrite(g);
    }

    /** ~Shared: the handle stops existing. */
    method Destroy(ghost g: Graph)
      requires g.Valid() && this in g.handles
      modifies g`handles, this, ctl
      ensures g.Valid() && g.handles == old(g.handles) - {this}
      ensures forall b | b in old(g.blocks) :: b in g.blocks &&
                b.ran == old(b.ran) + if old(g.Attached(b)) == {this} then [m_dtr] else []
      ensures ctl == (if old(Sole()) then null else old(ctl)) && m_dtr == old(m_dtr)
      ensures old(ctl) != null ==> old(ctl).ran == old(ctl.ran) + if old(Sole()) then [m_dtr] else []
      ensures ctl != null ==> ctl.cnt == old(ctl.cnt) - 1
      ensures g.Untouched(g.handles)
    {
      if ctl != null { g.SoleHandle(this); }
      ghost var p := ctl;
      Unref();
      g.handles := g.handles - {this};
      assert g.Links() == old(g.Links()) - {this};
      forall b | b in g.blocks
        ensures g.BlockOk(b) && (old(g.Attached(b)) == {this} <==> b == p && old(b.cnt) == 1)
      {
        LeaveKeepsAccounts(old(g.Links()), this, b, b.cow, old(b.cnt), old(b.deleted), |old(b.ran)|,
                           b.cnt, b.deleted, |b.ran|);
      }
    }
  }
}
