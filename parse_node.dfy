/**
 * The parse-node list of the JavaScript front end (js/src/frontend/ParseNode.h):
 * the kind-range predicates, the constant test, and ListNode, a singly
 * linked list threaded through the nodes' own `pn_next` links with a head
 * pointer, a tail pointer, a count and a word of flags.
 */
module ParseNodes {

  // ---------------------------------------------------------------------------
  // Kinds.  The enumeration starts at 1001 and lists 141 kinds; these are the
  // values of the kinds the predicates below mention.

  const EmptyStmt: nat := 1001
  const ArrayExpr: nat := 1016
  const StatementList: nat := 1018
  const ObjectExpr: nat := 1020
  const NumberExpr: nat := 1027
  const BigIntExpr: nat := 1028
  const StringExpr: nat := 1029
  const TemplateStringExpr: nat := 1031
  const TrueExpr: nat := 1035
  const FalseExpr: nat := 1036
  const NullExpr: nat := 1037
  const RawUndefinedExpr: nat := 1038
  const Function: nat := 1040
  const DeleteNameExpr: nat := 1055
  const DeletePropExpr: nat := 1056
  const DeleteElemExpr: nat := 1057
  const DeleteExpr: nat := 1058
  const LexicalScope: nat := 1067
  const ParamsBody: nat := 1081
  const TypeOfNameExpr: nat := 1097
  const TypeOfExpr: nat := 1098
  const PipelineExpr: nat := 1103
  const PowExpr: nat := 1128
  const AssignExpr: nat := 1129
  const PowAssignExpr: nat := 1141
  const Limit: nat := 1142

  // The binary operators, in enumeration order (BinOpFirst = PipelineExpr .. BinOpLast = PowExpr)
  // and the assignment operators (AssignmentStart = AssignExpr .. AssignmentLast = PowAssignExpr).
  const CoalesceExpr: nat := 1104
  const OrExpr: nat := 1105
  const AndExpr: nat := 1106
  const BitOrExpr: nat := 1107
  const BitXorExpr: nat := 1108
  const BitAndExpr: nat := 1109
  const StrictEqExpr: nat := 1110
  const EqExpr: nat := 1111
  const StrictNeExpr: nat := 1112
  const NeExpr: nat := 1113
  const LtExpr: nat := 1114
  const LeExpr: nat := 1115
  const GtExpr: nat := 1116
  const GeExpr: nat := 1117
  const InstanceOfExpr: nat := 1118
  const InExpr: nat := 1119
  const LshExpr: nat := 1120
  const RshExpr: nat := 1121
  const UrshExpr: nat := 1122
  const AddExpr: nat := 1123
  const SubExpr: nat := 1124
  const MulExpr: nat := 1125
  const DivExpr: nat := 1126
  const ModExpr: nat := 1127
  const AddAssignExpr: nat := 1130
  const SubAssignExpr: nat := 1131
  const BitOrAssignExpr: nat := 1132
  const BitXorAssignExpr: nat := 1133
  const BitAndAssignExpr: nat := 1134
  const LshAssignExpr: nat := 1135
  const RshAssignExpr: nat := 1136
  const UrshAssignExpr: nat := 1137
  const MulAssignExpr: nat := 1138
  const DivAssignExpr: nat := 1139
  const ModAssignExpr: nat := 1140

  const BinaryOperatorKinds: set<nat> := {
    PipelineExpr, CoalesceExpr, OrExpr, AndExpr, BitOrExpr, BitXorExpr, BitAndExpr, StrictEqExpr,
    EqExpr, StrictNeExpr, NeExpr, LtExpr, LeExpr, GtExpr, GeExpr, InstanceOfExpr, InExpr, LshExpr,
    RshExpr, UrshExpr, AddExpr, SubExpr, MulExpr, DivExpr, ModExpr, PowExpr
  }

  const AssignmentKinds: set<nat> := {
    AssignExpr, AddAssignExpr, SubAssignExpr, BitOrAssignExpr, BitXorAssignExpr, BitAndAssignExpr,
    LshAssignExpr, RshAssignExpr, UrshAssignExpr, MulAssignExpr, DivAssignExpr, ModAssignExpr,
    PowAssignExpr
  }

  /** IsDeleteKind: the four delete forms. */
  function IsDeleteKind(kind: nat): (r: bool)
    ensures r <==> kind in {DeleteNameExpr, DeletePropExpr, DeleteElemExpr, DeleteExpr}
  {
    DeleteNameExpr <= kind <= DeleteExpr
  }

  /** IsTypeofKind: the two typeof forms. */
  function IsTypeofKind(kind: nat): (r: bool)
    ensures r <==> kind in {TypeOfNameExpr, TypeOfExpr}
  {
    TypeOfNameExpr <= kind <= TypeOfExpr
  }

  /** isBinaryOperation: the kind is one of the binary operators, which the enumeration lists consecutively. */
  function IsBinaryOperation(kind: nat): (r: bool)
    ensures r <==> kind in BinaryOperatorKinds
  {
    PipelineExpr <= kind <= PowExpr
  }

  /** AssignmentNode::test: the kind is one of the assignment operators, which the enumeration lists consecutively. */
  function IsAssignment(kind: nat): (r: bool)
    ensures r <==> kind in AssignmentKinds
  {
    AssignExpr <= kind <= PowAssignExpr
  }

  /** The kind ranges are disjoint from each other and lie inside the enumeration. */
  lemma KindRangesDisjoint(kind: nat)
    ensures IsBinaryOperation(kind) ==> !IsAssignment(kind) && !IsDeleteKind(kind) && !IsTypeofKind(kind)
    ensures IsAssignment(kind) ==> !IsDeleteKind(kind) && !IsTypeofKind(kind)
    ensures IsDeleteKind(kind) ==> !IsTypeofKind(kind)
    ensures (IsBinaryOperation(kind) || IsAssignment(kind) || IsDeleteKind(kind) || IsTypeofKind(kind))
            ==> EmptyStmt <= kind < Limit
  {
  }

  /** isLiteral. */
  function IsLiteral(kind: nat): (r: bool)
    ensures r <==> kind in {NumberExpr, BigIntExpr, StringExpr, TrueExpr, FalseExpr, NullExpr, RawUndefinedExpr}
  {
    kind == NumberExpr || kind == BigIntExpr || kind == StringExpr || kind == TrueExpr
    || kind == FalseExpr || kind == NullExpr || kind == RawUndefinedExpr
  }

  /**
   * isConstant: the literal kinds other than BigInt, template strings without
   * substitutions, and array or object literals whose initializer flag says
   * every element is constant.
   */
  function IsConstant(kind: nat, hasNonConstInitializer: bool): (r: bool)
  {
    match kind
    case 1027 | 1029 | 1031 | 1037 | 1038 | 1036 | 1035 => true
    case 1016 | 1020 => !hasNonConstInitializer
    case _ => false
  }

  /** Constants are literals and aggregate initializers, and differ from literals exactly at BigInt and template strings. */
  lemma ConstantVersusLiteral(kind: nat, nonConst: bool)
    ensures IsConstant(kind, nonConst) && !IsLiteral(kind)
            <==> kind == TemplateStringExpr || (kind in {ArrayExpr, ObjectExpr} && !nonConst)
    ensures IsLiteral(kind) && !IsConstant(kind, nonConst) <==> kind == BigIntExpr
    ensures kind in {ArrayExpr, ObjectExpr} ==> (IsConstant(kind, nonConst) <==> !nonConst)
  {
  }

  // ---------------------------------------------------------------------------
  // xflags

  const HasTopLevelFunctionDeclarationsBit: bv32 := 0x01
  const HasArrayHoleOrSpreadBit: bv32 := 0x02
  const HasNonConstInitializerBit: bv32 := 0x04
  const EmittedTopLevelFunctionDeclarationsBit: bv32 := 0x08

  const FlagBits: seq<bv32> := [HasTopLevelFunctionDeclarationsBit, HasArrayHoleOrSpreadBit,
                                HasNonConstInitializerBit, EmittedTopLevelFunctionDeclarationsBit]

  /** Setting or clearing one flag bit leaves every other flag bit as it was, and does what it says to its own. */
  lemma FlagUpdatesIndependent(x: bv32, i: int, j: int)
    requires 0 <= i < |FlagBits| && 0 <= j < |FlagBits| && i != j
    ensures (x | FlagBits[i]) & FlagBits[j] == x & FlagBits[j]
    ensures (x & !FlagBits[i]) & FlagBits[j] == x & FlagBits[j]
    ensures (x | FlagBits[i]) & FlagBits[i] != 0
    ensures (x & !FlagBits[i]) & FlagBits[i] == 0
  {
  }

  // ---------------------------------------------------------------------------
  // Nodes and lists

  /** A parse node as the list sees it: its kind, its source span and its link to the next sibling. */
  class PNode {
    var kind: nat
    var begin: nat
    var end: nat
    var next: PNode?
    /** For a LexicalScope node: the kind of its scope body. */
    var scopeBodyKind: nat

    constructor (kind: nat, begin: nat, end: nat, scopeBodyKind: nat)
      ensures this.kind == kind && this.begin == begin && this.end == end
      ensures this.scopeBodyKind == scopeBodyKind && next == null
    {
      this.kind := kind;
      this.begin := begin;
      this.end := end;
      this.scopeBodyKind := scopeBodyKind;
      next := null;
    }
  }

  /** The nodes are distinct and each one's next link is the following node, the last one's null. */
  ghost predicate Chained(nodes: seq<PNode>)
    reads set i | 0 <= i < |nodes| :: nodes[i]
  {
    (forall i :: 0 <= i < |nodes| - 1 ==> nodes[i].next == nodes[i + 1])
    && (|nodes| > 0 ==> nodes[|nodes| - 1].next == null)
    && (forall i, j :: 0 <= i < j < |nodes| ==> nodes[i] != nodes[j])
  }

  /** What a visitor did with one element during accept. */
  datatype Visit = Keep | Fail | Replace(node: PNode)

  /** The element left at a position by a visit. */
  function Decide(n: PNode, v: Visit): PNode
  {
    if v.Replace? then v.node else n
  }

  /** The elements after the first k visits of accept have been applied. */
  function Spliced(nodes: seq<PNode>, visits: seq<Visit>, k: nat): (r: seq<PNode>)
    requires k <= |nodes| <= |visits|
    ensures |r| == |nodes|
    ensures forall j :: 0 <= j < k ==> r[j] == Decide(nodes[j], visits[j])
    ensures forall j :: k <= j < |nodes| ==> r[j] == nodes[j]
  {
    seq(|nodes|, j requires 0 <= j < |nodes| => if j < k then Decide(nodes[j], visits[j]) else nodes[j])
  }

  /** The nodes a visit sequence puts into the list. */
  function Replacements(visits: seq<Visit>): set<PNode>
  {
    set j | 0 <= j < |visits| && visits[j].Replace? :: visits[j].node
  }

  class ListNode {
    var kind: nat
    var begin: nat
    var end: nat
    var head: PNode?
    /** The node whose `next` field tail_ points at; null when tail_ points at head_. */
    var tail: PNode?
    var count: nat
    var xflags: bv32

    ghost var Nodes: seq<PNode>
    ghost var Repr: set<object>

    ghost predicate Valid()
      reads this, Repr
    {
      this in Repr
      && (forall i :: 0 <= i < |Nodes| ==> Nodes[i] in Repr)
      && count == |Nodes|
      && head == (if Nodes == [] then null else Nodes[0])
      && tail == (if Nodes == [] then null else Nodes[|Nodes| - 1])
      && Chained(Nodes)
    }

    /** ListNode(kind, pos): an empty list. */
    constructor Empty(kind: nat, begin: nat, end: nat)
      ensures Valid() && fresh(Repr) && Nodes == [] && count == 0 && xflags == 0
      ensures this.kind == kind && this.begin == begin && this.end == end
    {
      this.kind := kind;
      this.begin := begin;
      this.end := end;
      head := null;
      tail := null;
      count := 0;
      xflags := 0;
      Nodes := [];
      Repr := {this};
    }

    /** ListNode(kind, kid): a one-element list spanning the kid. */
    constructor Single(kind: nat, kid: PNode)
      requires kid.next == null
      ensures Valid() && fresh(Repr - {kid}) && Nodes == [kid] && count == 1 && xflags == 0
      ensures this.kind == kind && begin == kid.begin && end == kid.end
    {
      this.kind := kind;
      begin := kid.begin;
      end := kid.end;
      head := kid;
      tail := kid;
      count := 1;
      xflags := 0;
      Nodes := [kid];
      Repr := {this, kid};
    }

    function Empty_(): (r: bool)
      reads this, Repr
      requires Valid()
      ensures r <==> Nodes == []
    {
      count == 0
    }

    /** makeEmpty: no elements, the tail back at the head pointer, and no flags. */
    method MakeEmpty()
      requires Valid()
      modifies this
      ensures Valid() && Nodes == [] && count == 0 && xflags == 0 && Repr == old(Repr)
      ensures kind == old(kind) && begin == old(begin) && end == old(end)
    {
      head := null;
      tail := null;
      count := 0;
      xflags := 0;
      Nodes := [];
    }

    /** appendWithoutOrderAssumption: the item becomes the last element and ends the list's span. */
    method AppendWithoutOrderAssumption(item: PNode)
      requires Valid() && item !in Repr && item.next == null
      modifies this, (if tail == null then {} else {tail})`next
      ensures Valid() && Nodes == old(Nodes) + [item] && count == old(count) + 1
      ensures Repr == old(Repr) + {item}
      ensures end == item.end && begin == old(begin) && kind == old(kind) && xflags == old(xflags)
    {
      end := item.end;
      if tail == null {
        head := item;
      } else {
        tail.next := item;
      }
      tail := item;
      count := count + 1;
      Nodes := Nodes + [item];
      Repr := Repr + {item};
    }

    /** append: as appendWithoutOrderAssumption, for an item that does not start before the list. */
    method Append(item: PNode)
      requires Valid() && item !in Repr && item.next == null
      requires item.begin >= begin
      modifies this, (if tail == null then {} else {tail})`next
      ensures Valid() && Nodes == old(Nodes) + [item] && count == old(count) + 1
      ensures Repr == old(Repr) + {item}
      ensures end == item.end && begin == old(begin) && kind == old(kind) && xflags == old(xflags)
    {
      AppendWithoutOrderAssumption(item);
    }

    /** prepend: the item becomes the head; the tail moves only when the list was empty. */
    method Prepend(item: PNode)
      requires Valid() && item !in Repr
      modifies this, item`next
      ensures Valid() && Nodes == [item] + old(Nodes) && count == old(count) + 1
      ensures Repr == old(Repr) + {item}
      ensures old(Nodes) != [] ==> tail == old(tail)
      ensures begin == old(begin) && end == old(end) && kind == old(kind) && xflags == old(xflags)
      ensures item.kind == old(item.kind) && item.begin == old(item.begin) && item.end == old(item.end)
    {
      item.next := head;
      head := item;
      if tail == null {
        tail := item;
      }
      count := count + 1;
      Nodes := [item] + Nodes;
      Repr := Repr + {item};
    }

    /** prependAndUpdatePos: prepend, and the list's span now starts where the item starts. */
    method PrependAndUpdatePos(item: PNode)
      requires Valid() && item !in Repr
      modifies this, item`next
      ensures Valid() && Nodes == [item] + old(Nodes) && count == old(count) + 1
      ensures Repr == old(Repr) + {item}
      ensures begin == item.begin && end == old(end) && kind == old(kind) && xflags == old(xflags)
    {
      Prepend(item);
      begin := item.begin;
    }

    /** last: the final element of a non-empty list, found from the tail pointer. */
    function Last(): (r: PNode)
      reads this, Repr
      requires Valid() && count > 0
      ensures r == Nodes[|Nodes| - 1] && r.next == null
    {
      tail
    }

    /** replaceLast: only the final element changes; the count stays and the span ends at the new node. */
    method ReplaceLast(node: PNode)
      requires Valid() && count > 0 && node !in Repr && node.next == null
      modifies this, (set j | 0 <= j < |Nodes| :: Nodes[j])`next
      ensures Valid() && count == old(count)
      ensures Nodes == old(Nodes)[..|old(Nodes)| - 1] + [node]
      ensures Repr == old(Repr) + {node}
      ensures tail == node && end == node.end && begin == old(begin) && xflags == old(xflags) && kind == old(kind)
    {
      end := node.end;
      var item := head;
      var lastNode := Last();
      if item == lastNode {
        head := node;
      } else {
        ghost var i := 0;
        while item.next != lastNode
          invariant 0 <= i < |Nodes| - 1 && item == Nodes[i]
          decreases |Nodes| - i
        {
          assert Nodes[i + 1] != Nodes[|Nodes| - 1];
          item := item.next;
          i := i + 1;
        }
        assert Nodes[i + 1] == Nodes[|Nodes| - 1];
        item.next := node;
      }
      tail := node;
      Nodes := Nodes[..|Nodes| - 1] + [node];
      Repr := Repr + {node};
    }

    /**
     * ReplaceNode at position i: the replacement takes over the replaced
     * node's next link, and the link that pointed at the replaced node (the
     * head pointer, or the previous node's next) now points at the replacement.
     */
    method ReplaceNode(prev: PNode?, ghost i: nat, rep: PNode)
      requires Chained(Nodes) && i < |Nodes| && head == Nodes[0]
      requires (forall j :: 0 <= j < |Nodes| ==> Nodes[j] in Repr) && rep !in Repr
      requires prev == (if i == 0 then null else Nodes[i - 1])
      modifies this`head, this`Nodes, this`Repr, (if prev == null then {} else {prev})`next, rep`next
      ensures Nodes == old(Nodes)[i := rep] && Chained(Nodes) && head == Nodes[0]
      ensures Repr == old(Repr) + {rep} && (forall j :: 0 <= j < |Nodes| ==> Nodes[j] in Repr)
      ensures rep.next == old(Nodes[i].next)
    {
      assert prev != null ==> prev.next == Nodes[i];
      var replaced := if prev == null then head else prev.next;
      rep.next := replaced.next;
      if prev == null {
        head := rep;
      } else {
        prev.next := rep;
      }
      Nodes := Nodes[i := rep];
      Repr := Repr + {rep};
      forall j | 0 <= j < |Nodes| - 1
        ensures Nodes[j].next == Nodes[j + 1]
      {
        if j != i && j + 1 != i {
          assert Nodes[j] == old(Nodes)[j] != prev;
        }
      }
    }

    /**
     * The state of accept before visiting position i of the original nodes:
     * the first i visits are spliced in, the list is still well linked from
     * head, prev is the link before position i and cur the node there, and
     * the replacements still to come are not yet in the list.
     */
    ghost predicate Walking(nodes: seq<PNode>, visits: seq<Visit>, i: nat, prev: PNode?, cur: PNode?)
      reads this, Repr
    {
      && i <= |nodes| <= |visits|
      && Nodes == Spliced(nodes, visits, i)
      && this in Repr && (forall j :: 0 <= j < |Nodes| ==> Nodes[j] in Repr)
      && Chained(Nodes)
      && head == (if nodes == [] then null else Nodes[0])
      && prev == (if i == 0 then null else Nodes[i - 1])
      && cur == (if i < |nodes| then nodes[i] else null)
      && (forall j :: i <= j < |visits| && visits[j].Replace? ==> visits[j].node !in Repr)
    }

    /**
     * One turn of accept on the node at position i, which the visit does not
     * fail: a replacement is spliced in; either way the walk moves on from
     * the node now at position i.
     */
    method AcceptStep(prev: PNode?, cur: PNode, ghost i: nat, v: Visit, ghost nodes: seq<PNode>, ghost visits: seq<Visit>)
      returns (pn: PNode)
      requires Walking(nodes, visits, i, prev, cur) && i < |nodes| && v == visits[i] && !v.Fail?
      requires forall j, k :: 0 <= j < k < |visits| && visits[j].Replace? && visits[k].Replace?
                 ==> visits[j].node != visits[k].node
      modifies this`head, this`Nodes, this`Repr, (if prev == null then {} else {prev})`next
      modifies (if v.Replace? then {v.node} else {})`next
      ensures Walking(nodes, visits, i + 1, pn, pn.next)
      ensures Repr == old(Repr) + (if v.Replace? then {v.node} else {})
    {
      pn := cur;
      if v.Replace? {
        ReplaceNode(prev, i, v.node);
        pn := v.node;
        forall j | i + 1 <= j < |visits| && visits[j].Replace? ensures visits[j].node !in Repr {
          assert visits[j].node != v.node;
        }
      }
      assert Nodes[i] == pn;
      if i + 1 < |nodes| {
        assert Nodes[i + 1] == nodes[i + 1];
      }
    }

    /**
     * The loop of accept: visits from the head until the end of the list or
     * the first failing visit, which is at position k; prev is the link
     * before position k.
     */
    method VisitAll(visits: seq<Visit>) returns (ok: bool, prev: PNode?, k: nat)
      requires Walking(Nodes, visits, 0, null, head)
      requires forall i, j :: 0 <= i < j < |visits| && visits[i].Replace? && visits[j].Replace?
                 ==> visits[i].node != visits[j].node
      modifies this`head, this`Nodes, this`Repr, (set j | 0 <= j < |Nodes| :: Nodes[j])`next, Replacements(visits)`next
      ensures k <= |old(Nodes)| && (ok <==> k == |old(Nodes)|) && (!ok ==> visits[k].Fail?)
      ensures forall j :: 0 <= j < k ==> !visits[j].Fail?
      ensures Walking(old(Nodes), visits, k, prev, if ok then null else old(Nodes)[k])
      ensures kind == old(kind) && begin == old(begin) && end == old(end) && xflags == old(xflags)
      ensures tail == old(tail) && count == old(count)
    {
      ghost var nodes := Nodes;
      prev := null;
      var cur := head;
      k := 0;
      while cur != null
        invariant Walking(nodes, visits, k, prev, cur)
        invariant forall j :: 0 <= j < k ==> !visits[j].Fail?
        invariant Repr <= old(Repr) + Replacements(visits)
        decreases |nodes| - k
      {
        var v := visits[k];
        if v.Fail? {
          return false, prev, k;
        }
        assert v.Replace? ==> v.node in Replacements(visits);
        var pn := AcceptStep(prev, cur, k, v, nodes, visits);
        assert Walking(nodes, visits, k + 1, pn, pn.next);
        prev := pn;
        cur := pn.next;
        k := k + 1;
      }
      ok := true;
    }

    /**
     * accept: visits the elements in order.  A visit that replaces its node
     * splices the replacement in at the same position; a failing visit stops
     * the walk.  When every visit succeeds the tail is reset to the final link.
     */
    method Accept(visits: seq<Visit>) returns (ok: bool)
      requires Valid() && |visits| >= |Nodes|
      requires forall j :: 0 <= j < |visits| && visits[j].Replace? ==> visits[j].node !in Repr
      requires forall i, j :: 0 <= i < j < |visits| && visits[i].Replace? && visits[j].Replace?
                 ==> visits[i].node != visits[j].node
      modifies this, (set j | 0 <= j < |Nodes| :: Nodes[j])`next, Replacements(visits)`next
      ensures Valid() && count == old(count)
      ensures ok <==> forall j :: 0 <= j < |old(Nodes)| ==> !visits[j].Fail?
      ensures ok ==> Nodes == Spliced(old(Nodes), visits, |old(Nodes)|)
      ensures !ok ==> exists k :: 0 <= k < |old(Nodes)| && visits[k].Fail?
                        && (forall j :: 0 <= j < k ==> !visits[j].Fail?)
                        && Nodes == Spliced(old(Nodes), visits, k)
      ensures kind == old(kind) && begin == old(begin) && end == old(end) && xflags == old(xflags)
    {
      ghost var nodes := Nodes;
      assert Spliced(nodes, visits, 0) == nodes;
      var prev;
      var k;
      ok, prev, k := VisitAll(visits);
      assert |Nodes| == |nodes| && Chained(Nodes);
      if ok {
        tail := prev;
      } else {
        assert nodes != [] ==> Nodes[|nodes| - 1] == nodes[|nodes| - 1];
        assert visits[k].Fail? && Nodes == Spliced(nodes, visits, k);
      }
    }

    // xflags accessors; each asserts in the source that the list has the kind the flag belongs to.

    function HasTopLevelFunctionDeclarations(): bool
      reads this
      requires kind == StatementList
    {
      xflags & HasTopLevelFunctionDeclarationsBit != 0
    }

    function EmittedTopLevelFunctionDeclarations(): bool
      reads this
      requires kind == StatementList && HasTopLevelFunctionDeclarations()
    {
      xflags & EmittedTopLevelFunctionDeclarationsBit != 0
    }

    function HasArrayHoleOrSpread(): bool
      reads this
      requires kind == ArrayExpr
    {
      xflags & HasArrayHoleOrSpreadBit != 0
    }

    function HasNonConstInitializer(): bool
      reads this
      requires kind == ArrayExpr || kind == ObjectExpr
    {
      xflags & HasNonConstInitializerBit != 0
    }

    method SetHasTopLevelFunctionDeclarations()
      requires kind == StatementList
      modifies this`xflags
      ensures xflags == old(xflags) | HasTopLevelFunctionDeclarationsBit
      ensures HasTopLevelFunctionDeclarations()
    {
      xflags := xflags | HasTopLevelFunctionDeclarationsBit;
    }

    method SetEmittedTopLevelFunctionDeclarations()
      requires kind == StatementList && HasTopLevelFunctionDeclarations()
      modifies this`xflags
      ensures xflags == old(xflags) | EmittedTopLevelFunctionDeclarationsBit
      ensures HasTopLevelFunctionDeclarations() && EmittedTopLevelFunctionDeclarations()
    {
      xflags := xflags | EmittedTopLevelFunctionDeclarationsBit;
    }

    method SetHasArrayHoleOrSpread()
      requires kind == ArrayExpr
      modifies this`xflags
      ensures xflags == old(xflags) | HasArrayHoleOrSpreadBit
      ensures HasArrayHoleOrSpread() && HasNonConstInitializer() == old(HasNonConstInitializer())
    {
      xflags := xflags | HasArrayHoleOrSpreadBit;
    }

    method SetHasNonConstInitializer()
      requires kind == ArrayExpr || kind == ObjectExpr
      modifies this`xflags
      ensures xflags == old(xflags) | HasNonConstInitializerBit
      ensures HasNonConstInitializer() && !IsConstant(kind, HasNonConstInitializer())
    {
      xflags := xflags | HasNonConstInitializerBit;
    }

    method UnsetHasNonConstInitializer()
      requires kind == ArrayExpr || kind == ObjectExpr
      modifies this`xflags
      ensures xflags == old(xflags) & !HasNonConstInitializerBit
      ensures !HasNonConstInitializer() && IsConstant(kind, HasNonConstInitializer())
      ensures kind == ArrayExpr ==> HasArrayHoleOrSpread() == old(HasArrayHoleOrSpread())
    {
      xflags := xflags & !HasNonConstInitializerBit;
    }
  }

  /**
   * FunctionFormalParametersList: the parameter list of a function's
   * ParamsBody is its elements, except that a trailing lexical scope whose
   * body is a statement list is the function body and not a formal.
   */
  method FunctionFormalParametersList(argsBody: ListNode) returns (head: PNode?, numFormals: nat)
    requires argsBody.Valid() && argsBody.kind == ParamsBody
    ensures head == (if argsBody.Nodes == [] then null else argsBody.Nodes[0])
    ensures numFormals == |argsBody.Nodes| - (if HasBodyScope(argsBody.Nodes) then 1 else 0)
    ensures numFormals <= |argsBody.Nodes|
  {
    numFormals := argsBody.count;
    if numFormals > 0 {
      var last := argsBody.Last();
      if last.kind == LexicalScope && last.scopeBodyKind == StatementList {
        numFormals := numFormals - 1;
      }
    }
    head := argsBody.head;
  }

  /** The final element of a ParamsBody is the function's body scope. */
  ghost predicate HasBodyScope(nodes: seq<PNode>)
    reads set i | 0 <= i < |nodes| :: nodes[i]
  {
    |nodes| > 0 && nodes[|nodes| - 1].kind == LexicalScope && nodes[|nodes| - 1].scopeBodyKind == StatementList
  }
}
