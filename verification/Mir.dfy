/** The part of MIR the ownership theorems cover: types, places, operands,
    statements, terminators and bodies. */
module Mir {
  import opened Heaps

  datatype Option<+T> = None | Some(value: T)

  /** Why a run stopped: an error the program earned (a panic, an index out of
      range, a limit), an access to memory that is gone, or a step the type
      checker or the borrow checker promises never to let through. */
  datatype Stop = Fault(message: string) | MemoryFault(message: string) | Promise(message: string)

  datatype Outcome<+T> = Done(value: T) | Stopped(why: Stop)

  /** Each variant of an enum carries one value; more fields make a record. */
  datatype Ty =
    | TUnit
    | TInt
    | TStr
    | TSlice
    | TCell
    | TBorrow
    | TRecord(fields: seq<Ty>)
    | TEnum(variants: seq<Ty>)

  datatype Idx = At(n: int) | From(local: nat)

  datatype Place =
    | Local(local: nat)
    | Deref(local: nat)
    | Field(base: Place, field: nat)
    | VariantField(base: Place, variant: nat, field: nat)
    | Index(base: Place, index: Idx)

  datatype Operand =
    | Copy(place: Place)
    | Move(place: Place)
    | ConstInt(n: int)
    | ConstStr(bytes: seq<nat>)
    | ConstUnit

  datatype Rvalue =
    | Use(operand: Operand)
    | Ref(place: Place)
    | Record(fields: seq<Operand>)
    | Variant(tag: nat, payload: seq<Operand>)
    | SliceLen(place: Place)
    | Discriminant(place: Place)
    | Concat(left: Operand, right: Operand)

  datatype Statement = Assign(place: Place, rvalue: Rvalue) | DropLocal(local: nat)

  datatype Builtin =
    | CellNew(arg: Operand)
    | CellGet(cell: Operand)
    | CellSet(cell: Operand, arg: Operand)
    | CellClone(cell: Operand)
    | StrongCount(cell: Operand)
    | SliceOfZeros(elem: Ty, len: Operand)

  datatype Terminator =
    | Goto(target: nat)
    | SwitchInt(discriminant: Operand, targets: seq<(int, nat)>, otherwise: nat)
    | Call(name: string, args: seq<Operand>, destination: Option<Place>, resume: nat)
    | CallBuiltin(op: Builtin, destination: Option<Place>, resume: nat)
    | Return(operand: Operand)
    | Unreachable

  datatype BasicBlock = BasicBlock(statements: seq<Statement>, terminator: Terminator)

  datatype Body = Body(locals: seq<Ty>, paramCount: nat, returnTy: Ty, blocks: seq<BasicBlock>)

  /** Whether values of the type own heap storage. Slices and cells do whatever
      they hold, so a type that contains itself through one is no problem. */
  predicate NeedsDrop(ty: Ty) {
    match ty
    case TStr => true
    case TSlice => true
    case TCell => true
    case TRecord(ts) => exists i :: 0 <= i < |ts| && NeedsDrop(ts[i])
    case TEnum(vs) => exists i :: 0 <= i < |vs| && NeedsDrop(vs[i])
    case _ => false
  }

  /** Whether the shape of the value has a place for an owning pointer. */
  predicate Owning(v: Value) {
    match v
    case VStr(_) => true
    case VSlice(_) => true
    case VCell(_) => true
    case VRecord(fs) => exists i :: 0 <= i < |fs| && Owning(fs[i])
    case VEnum(_, fs) => exists i :: 0 <= i < |fs| && Owning(fs[i])
    case _ => false
  }

  /** What zero-filled memory reads as at a type. */
  function Zero(ty: Ty): Value {
    match ty
    case TUnit => VUnit
    case TInt => VInt(0)
    case TStr => VStr(0)
    case TSlice => VSlice(0)
    case TCell => VCell(0)
    case TBorrow => VRef(Slot(0, []))
    case TRecord(ts) => VRecord(Zeros(ts))
    case TEnum(vs) => VEnum(0, if |vs| == 0 then [] else [Zero(vs[0])])
  }

  function Zeros(ts: seq<Ty>): seq<Value> {
    if ts == [] then [] else [Zero(ts[0])] + Zeros(ts[1..])
  }

  lemma {:induction false} NotOwning(v: Value)
    requires !Owning(v)
    ensures Owners(v) == multiset{}
  {
    match v
    case VRecord(fs) => NoneOwning(fs);
    case VEnum(_, fs) => NoneOwning(fs);
    case _ =>
  }

  lemma {:induction false} NoneOwning(vs: seq<Value>)
    requires forall i :: 0 <= i < |vs| ==> !Owning(vs[i])
    ensures OwnersAll(vs) == multiset{}
  {
    if vs != [] {
      NotOwning(vs[0]);
      NoneOwning(vs[1..]);
    }
  }

  lemma {:induction false} ZeroOwners(ty: Ty)
    ensures Owners(Zero(ty)) == multiset{}
    ensures !NeedsDrop(ty) ==> !Owning(Zero(ty))
  {
    match ty
    case TRecord(ts) => ZerosOwners(ts);
    case TEnum(vs) =>
      if |vs| > 0 {
        ZeroOwners(vs[0]);
        OwnersAllSingle(Zero(vs[0]));
      }
    case _ =>
  }

  lemma {:induction false} ZerosOwners(ts: seq<Ty>)
    ensures |Zeros(ts)| == |ts| && OwnersAll(Zeros(ts)) == multiset{}
    ensures forall i :: 0 <= i < |ts| && !NeedsDrop(ts[i]) ==> !Owning(Zeros(ts)[i])
  {
    if ts != [] {
      ZeroOwners(ts[0]);
      ZerosOwners(ts[1..]);
      var zs := Zeros(ts);
      assert zs[1..] == Zeros(ts[1..]);
      forall i | 0 <= i < |ts| && !NeedsDrop(ts[i]) ensures !Owning(zs[i]) {
        if i > 0 {
          assert ts[1..][i - 1] == ts[i] && zs[i] == zs[1..][i - 1];
        }
      }
    }
  }
}
