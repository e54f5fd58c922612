// The instructions of the emulator: how many words each takes according to the code copier and to the
// destructor of a code area, and which operands of it the copier renames.
module Opcodes {

  datatype Opcode = | PROFILEPROC | RETURN | POPEX | DEALLOCATEL10 | DEALLOCATEL9 | DEALLOCATEL8 | DEALLOCATEL7
    | DEALLOCATEL6 | DEALLOCATEL5
    | DEALLOCATEL4 | DEALLOCATEL3 | DEALLOCATEL2 | DEALLOCATEL1 | DEALLOCATEL | ALLOCATEL10 | ALLOCATEL9 | ALLOCATEL8
      | ALLOCATEL7 | ALLOCATEL6
    | ALLOCATEL5 | ALLOCATEL4 | ALLOCATEL3 | ALLOCATEL2 | ALLOCATEL1 | SKIP | ENDOFFILE | DEFINITIONCOPY | DEFINITION
      | CLEARY | GETVOID
    | GETVARIABLEY | GETVARIABLEX | FUNRETURNG | FUNRETURNY | FUNRETURNX | GETRETURNG | GETRETURNY | GETRETURNX
      | EXHANDLER | BRANCH | SETSELFG
    | GETSELF | ALLOCATEL | UNIFYVOID | UNIFYNUMBER | UNIFYVALUEG | UNIFYVALUEY | UNIFYVALUEX | UNIFYVARIABLEY
      | UNIFYVARIABLEX | GETLISTG | GETLISTY
    | GETLISTX | SETVOID | SETVALUEG | SETVALUEY | SETVALUEX | SETVARIABLEY | SETVARIABLEX | PUTLISTY | PUTLISTX
      | CREATEVARIABLEY | CREATEVARIABLEX
    | ENDDEFINITION | DECONSCALLX | DECONSCALLY | DECONSCALLG | TAILDECONSCALLX | TAILDECONSCALLG | INLINEMINUS1
      | INLINEPLUS1 | GETVARVARYY
    | GETVARVARYX | GETVARVARXY | GETVARVARXX | TESTLISTG | TESTLISTY | TESTLISTX | LOCKTHREAD | TAILCALLG | TAILCALLX
      | CALLG | CALLY | CALLX
    | CONSCALLX | CONSCALLY | CONSCALLG | TAILCONSCALLX | TAILCONSCALLG | CALLGLOBAL | GETNUMBERG | GETNUMBERY
      | GETNUMBERX | UNIFYVALVARGY
    | UNIFYVALVARGX | UNIFYVALVARYY | UNIFYVALVARYX | UNIFYVALVARXY | UNIFYVALVARXX | UNIFYXG | UNIFYXY | UNIFYXX
      | CREATEVARIABLEMOVEY
    | CREATEVARIABLEMOVEX | MOVEGY | MOVEGX | MOVEYY | MOVEYX | MOVEXY | MOVEXX | TESTLE | TESTLT | MOVEMOVEYXXY
      | MOVEMOVEXYYX | MOVEMOVEYXYX
    | MOVEMOVEXYXY | GETRECORDG | GETRECORDY | GETRECORDX | PUTRECORDY | PUTRECORDX | CALLCONSTANT | GETLITERALG
      | GETLITERALY | GETLITERALX
    | PUTCONSTANTY | PUTCONSTANTX | LOCALVARNAME | GLOBALVARNAME | UNIFYLITERAL | SETCONSTANT | SETPROCEDUREREF
      | INLINEMINUS | INLINEPLUS | TESTBOOLG
    | TESTBOOLY | TESTBOOLX | TESTNUMBERG | TESTNUMBERY | TESTNUMBERX | GETLISTVALVARX | CALLMETHOD | FASTTAILCALL
      | FASTCALL | CALLPROCEDUREREF
    | TAILSENDMSGG | TAILSENDMSGY | TAILSENDMSGX | SENDMSGG | SENDMSGY | SENDMSGX | INLINEASSIGN | INLINEAT
      | TESTLITERALG | TESTLITERALY
    | TESTLITERALX | TESTRECORDG | TESTRECORDY | TESTRECORDX | MATCHG | MATCHY | MATCHX | DEBUGEXIT | DEBUGENTRY
      | INLINEDOT | TESTBI | CALLBI

  // The length according to the copier; 0 for the instructions it does not know.
  function CopyLength(op: Opcode): nat {
    match op
    case PROFILEPROC | RETURN | POPEX | DEALLOCATEL10 | DEALLOCATEL9 | DEALLOCATEL8 | DEALLOCATEL7 | DEALLOCATEL6
      | DEALLOCATEL5 | DEALLOCATEL4
       | DEALLOCATEL3 | DEALLOCATEL2 | DEALLOCATEL1 | DEALLOCATEL | ALLOCATEL10 | ALLOCATEL9 | ALLOCATEL8 | ALLOCATEL7
         | ALLOCATEL6 | ALLOCATEL5
       | ALLOCATEL4 | ALLOCATEL3 | ALLOCATEL2 | ALLOCATEL1 | SKIP | ENDOFFILE => 1
    case CLEARY | GETVOID | GETVARIABLEY | GETVARIABLEX | FUNRETURNG | FUNRETURNY | FUNRETURNX | GETRETURNG | GETRETURNY
      | GETRETURNX | EXHANDLER
       | BRANCH | SETSELFG | GETSELF | ALLOCATEL | UNIFYVOID | UNIFYNUMBER | UNIFYVALUEG | UNIFYVALUEY | UNIFYVALUEX
         | UNIFYVARIABLEY | UNIFYVARIABLEX
       | GETLISTG | GETLISTY | GETLISTX | SETVOID | SETVALUEG | SETVALUEY | SETVALUEX | SETVARIABLEY | SETVARIABLEX
         | PUTLISTY | PUTLISTX
       | CREATEVARIABLEY | CREATEVARIABLEX | ENDDEFINITION | LOCALVARNAME | GLOBALVARNAME | UNIFYLITERAL | SETCONSTANT
       | SETPROCEDUREREF => 2
    case INLINEMINUS1 | INLINEPLUS1 | CALLBI | GETVARVARYY | GETVARVARYX | GETVARVARXY | GETVARVARXX | TESTLISTG
      | TESTLISTY | TESTLISTX | LOCKTHREAD
       | TAILCALLG | TAILCALLX | CALLG | CALLY | CALLX | CALLGLOBAL | GETNUMBERG | GETNUMBERY | GETNUMBERX
         | UNIFYVALVARGY | UNIFYVALVARGX
       | UNIFYVALVARYY | UNIFYVALVARYX | UNIFYVALVARXY | UNIFYVALVARXX | UNIFYXG | UNIFYXY | UNIFYXX
         | CREATEVARIABLEMOVEY | CREATEVARIABLEMOVEX
       | MOVEGY | MOVEGX | MOVEYY | MOVEYX | MOVEXY | MOVEXX | CALLCONSTANT | GETLITERALG | GETLITERALY | GETLITERALX
         | PUTCONSTANTY | PUTCONSTANTX
       | CALLMETHOD | FASTTAILCALL | FASTCALL | CALLPROCEDUREREF | MATCHG | MATCHY | MATCHX => 3
    case GETRECORDG | GETRECORDY | GETRECORDX | PUTRECORDY | PUTRECORDX | TESTBI | INLINEMINUS | INLINEPLUS | TESTBOOLG
      | TESTBOOLY | TESTBOOLX
       | TESTNUMBERG | TESTNUMBERY | TESTNUMBERX | GETLISTVALVARX | TESTLITERALG | TESTLITERALY | TESTLITERALX => 4
    case TESTLE | TESTLT | MOVEMOVEYXXY | MOVEMOVEXYYX | MOVEMOVEYXYX | MOVEMOVEXYXY | INLINEASSIGN | INLINEAT
      | TESTRECORDG | TESTRECORDY
       | TESTRECORDX | DEBUGEXIT | DEBUGENTRY => 5
    case DEFINITIONCOPY | DEFINITION | TAILSENDMSGG | TAILSENDMSGY | TAILSENDMSGX | SENDMSGG | SENDMSGY | SENDMSGX
       | INLINEDOT => 6
    case _ => 0
  }

  // The length according to the destructor, which knows all of them.
  function WalkLength(op: Opcode): nat {
    match op
    case PROFILEPROC | RETURN | POPEX | DEALLOCATEL10 | DEALLOCATEL9 | DEALLOCATEL8 | DEALLOCATEL7 | DEALLOCATEL6
      | DEALLOCATEL5 | DEALLOCATEL4
       | DEALLOCATEL3 | DEALLOCATEL2 | DEALLOCATEL1 | DEALLOCATEL | ALLOCATEL10 | ALLOCATEL9 | ALLOCATEL8 | ALLOCATEL7
         | ALLOCATEL6 | ALLOCATEL5
       | ALLOCATEL4 | ALLOCATEL3 | ALLOCATEL2 | ALLOCATEL1 | SKIP | ENDOFFILE => 1
    case CLEARY | GETVOID | GETVARIABLEY | GETVARIABLEX | FUNRETURNG | FUNRETURNY | FUNRETURNX | GETRETURNG | GETRETURNY
      | GETRETURNX | EXHANDLER
       | BRANCH | SETSELFG | GETSELF | ALLOCATEL | UNIFYVOID | UNIFYNUMBER | UNIFYVALUEG | UNIFYVALUEY | UNIFYVALUEX
         | UNIFYVARIABLEY | UNIFYVARIABLEX
       | GETLISTG | GETLISTY | GETLISTX | SETVOID | SETVALUEG | SETVALUEY | SETVALUEX | SETVARIABLEY | SETVARIABLEX
         | PUTLISTY | PUTLISTX
       | CREATEVARIABLEY | CREATEVARIABLEX | ENDDEFINITION | DECONSCALLX | DECONSCALLY | DECONSCALLG | TAILDECONSCALLX
         | TAILDECONSCALLG
       | LOCALVARNAME | GLOBALVARNAME | UNIFYLITERAL | SETCONSTANT | SETPROCEDUREREF => 2
    case INLINEMINUS1 | INLINEPLUS1 | GETVARVARYY | GETVARVARYX | GETVARVARXY | GETVARVARXX | TESTLISTG | TESTLISTY
      | TESTLISTX | LOCKTHREAD
       | TAILCALLG | TAILCALLX | CALLG | CALLY | CALLX | CONSCALLX | CONSCALLY | CONSCALLG | TAILCONSCALLX
         | TAILCONSCALLG | CALLGLOBAL | GETNUMBERG
       | GETNUMBERY | GETNUMBERX | UNIFYVALVARGY | UNIFYVALVARGX | UNIFYVALVARYY | UNIFYVALVARYX | UNIFYVALVARXY
         | UNIFYVALVARXX | UNIFYXG | UNIFYXY
       | UNIFYXX | CREATEVARIABLEMOVEY | CREATEVARIABLEMOVEX | MOVEGY | MOVEGX | MOVEYY | MOVEYX | MOVEXY | MOVEXX
         | CALLCONSTANT | GETLITERALG
       | GETLITERALY | GETLITERALX | PUTCONSTANTY | PUTCONSTANTX | CALLMETHOD | FASTTAILCALL | FASTCALL
         | CALLPROCEDUREREF | MATCHG | MATCHY | MATCHX
       | CALLBI => 3
    case GETRECORDG | GETRECORDY | GETRECORDX | PUTRECORDY | PUTRECORDX | INLINEMINUS | INLINEPLUS | TESTBOOLG
      | TESTBOOLY | TESTBOOLX | TESTNUMBERG
       | TESTNUMBERY | TESTNUMBERX | GETLISTVALVARX | TESTLITERALG | TESTLITERALY | TESTLITERALX | TESTBI => 4
    case TESTLE | TESTLT | MOVEMOVEYXXY | MOVEMOVEXYYX | MOVEMOVEYXYX | MOVEMOVEXYXY | INLINEASSIGN | INLINEAT
      | TESTRECORDG | TESTRECORDY
       | TESTRECORDX | DEBUGEXIT | DEBUGENTRY => 5
    case DEFINITIONCOPY | DEFINITION | TAILSENDMSGG | TAILSENDMSGY | TAILSENDMSGX | SENDMSGG | SENDMSGY | SENDMSGX
       | INLINEDOT => 6
  }

  datatype Kind = Fixed | Tagged | Arity | Pred | Proc | Method | Cache | Table

  // What the word at an offset into an instruction is for the copier.
  function Operand(op: Opcode, off: nat): Kind {
    match op
    case DEFINITIONCOPY | DEFINITION => if off == 3 then Pred else if off == 4 then Proc else Fixed
    case GETRECORDG | GETRECORDY | GETRECORDX | PUTRECORDY | PUTRECORDX => if off == 1 then Tagged else if off == 2
      then Arity else Fixed
    case CALLCONSTANT | GETLITERALG | GETLITERALY | GETLITERALX | PUTCONSTANTY | PUTCONSTANTX | LOCALVARNAME
      | GLOBALVARNAME | UNIFYLITERAL
       | SETCONSTANT => if off == 1 then Tagged else Fixed
    case SETPROCEDUREREF | FASTTAILCALL | FASTCALL | CALLPROCEDUREREF => if off == 1 then Proc else Fixed
    case CALLMETHOD => if off == 1 then Method else Fixed
    case TAILSENDMSGG | TAILSENDMSGY | TAILSENDMSGX | SENDMSGG | SENDMSGY | SENDMSGX => if off == 1 then Tagged
      else if off == 3 then Arity else if off == 4 then Cache else if off == 5 then Cache else Fixed
    case INLINEASSIGN | INLINEAT => if off == 1 then Tagged else if off == 3 then Cache else if off == 4 then Cache
      else Fixed
    case TESTLITERALG | TESTLITERALY | TESTLITERALX => if off == 2 then Tagged else Fixed
    case TESTRECORDG | TESTRECORDY | TESTRECORDX => if off == 2 then Tagged else if off == 3 then Arity else Fixed
    case MATCHG | MATCHY | MATCHX => if off == 2 then Table else Fixed
    case DEBUGEXIT => if off == 1 then Tagged else if off == 4 then Tagged else Fixed
    case INLINEDOT => if off == 2 then Tagged else if off == 4 then Cache else if off == 5 then Cache else Fixed
    case _ => Fixed
  }

  // The length according to the garbage collector, which knows all of them.
  function CollectLength(op: Opcode): nat {
    match op
    case PROFILEPROC | RETURN | POPEX | DEALLOCATEL10 | DEALLOCATEL9 | DEALLOCATEL8 | DEALLOCATEL7
      | DEALLOCATEL6 | DEALLOCATEL5 | DEALLOCATEL4 | DEALLOCATEL3 | DEALLOCATEL2 | DEALLOCATEL1 | DEALLOCATEL
      | ALLOCATEL10 | ALLOCATEL9 | ALLOCATEL8 | ALLOCATEL7 | ALLOCATEL6 | ALLOCATEL5 | ALLOCATEL4 | ALLOCATEL3
      | ALLOCATEL2 | ALLOCATEL1 | SKIP | ENDOFFILE => 1
    case CLEARY | GETVOID | GETVARIABLEY | GETVARIABLEX | FUNRETURNG | FUNRETURNY | FUNRETURNX | GETRETURNG
      | GETRETURNY | GETRETURNX | EXHANDLER | BRANCH | SETSELFG | GETSELF | ALLOCATEL | UNIFYVOID | UNIFYNUMBER
      | UNIFYVALUEG | UNIFYVALUEY | UNIFYVALUEX | UNIFYVARIABLEY | UNIFYVARIABLEX | GETLISTG | GETLISTY
      | GETLISTX | SETVOID | SETVALUEG | SETVALUEY | SETVALUEX | SETVARIABLEY | SETVARIABLEX | PUTLISTY
      | PUTLISTX | CREATEVARIABLEY | CREATEVARIABLEX | ENDDEFINITION | DECONSCALLX | DECONSCALLY | DECONSCALLG
      | TAILDECONSCALLX | TAILDECONSCALLG | LOCALVARNAME | GLOBALVARNAME | UNIFYLITERAL | SETCONSTANT
      | SETPROCEDUREREF => 2
    case INLINEMINUS1 | INLINEPLUS1 | GETVARVARYY | GETVARVARYX | GETVARVARXY | GETVARVARXX | TESTLISTG
      | TESTLISTY | TESTLISTX | LOCKTHREAD | TAILCALLG | TAILCALLX | CALLG | CALLY | CALLX | CONSCALLX
      | CONSCALLY | CONSCALLG | TAILCONSCALLX | TAILCONSCALLG | CALLGLOBAL | GETNUMBERG | GETNUMBERY
      | GETNUMBERX | UNIFYVALVARGY | UNIFYVALVARGX | UNIFYVALVARYY | UNIFYVALVARYX | UNIFYVALVARXY
      | UNIFYVALVARXX | UNIFYXG | UNIFYXY | UNIFYXX | CREATEVARIABLEMOVEY | CREATEVARIABLEMOVEX | MOVEGY
      | MOVEGX | MOVEYY | MOVEYX | MOVEXY | MOVEXX | CALLCONSTANT | GETLITERALG | GETLITERALY | GETLITERALX
      | PUTCONSTANTY | PUTCONSTANTX | CALLMETHOD | FASTTAILCALL | FASTCALL | CALLPROCEDUREREF | MATCHG | MATCHY
      | MATCHX | CALLBI => 3
    case GETRECORDG | GETRECORDY | GETRECORDX | PUTRECORDY | PUTRECORDX | INLINEMINUS | INLINEPLUS | TESTBOOLG
      | TESTBOOLY | TESTBOOLX | TESTNUMBERG | TESTNUMBERY | TESTNUMBERX | GETLISTVALVARX | TESTLITERALG
      | TESTLITERALY | TESTLITERALX | TESTBI => 4
    case TESTLE | TESTLT | MOVEMOVEYXXY | MOVEMOVEXYYX | MOVEMOVEYXYX | MOVEMOVEXYXY | INLINEASSIGN | INLINEAT
      | TESTRECORDG | TESTRECORDY | TESTRECORDX | DEBUGEXIT | DEBUGENTRY => 5
    case DEFINITIONCOPY | DEFINITION | TAILSENDMSGG | TAILSENDMSGY | TAILSENDMSGX | SENDMSGG | SENDMSGY
      | SENDMSGX | INLINEDOT => 6
  }

  // What the garbage collector does with an operand: collect a term, an abstraction entry, the name of a method call or
  // the values of a hash table, invalidate a cache; record arities are only mentioned.
  datatype Visit = Skipped | TermArg | ArityArg | EntryArg | MethodArg | TableArg | CacheArg

  function Visited(op: Opcode, off: nat): Visit {
    match op
    case DEFINITIONCOPY | DEFINITION => if off == 4 then EntryArg else Skipped
    case UNIFYNUMBER | GETNUMBERG | GETNUMBERY | GETNUMBERX | CALLCONSTANT | GETLITERALG | GETLITERALY
      | GETLITERALX | PUTCONSTANTY | PUTCONSTANTX | LOCALVARNAME | GLOBALVARNAME | UNIFYLITERAL | SETCONSTANT =>
      if off == 1 then TermArg else Skipped
    case GETRECORDG | GETRECORDY | GETRECORDX | PUTRECORDY | PUTRECORDX =>
      if off == 1 then TermArg else if off == 2 then ArityArg else Skipped
    case SETPROCEDUREREF | FASTTAILCALL | FASTCALL | CALLPROCEDUREREF => if off == 1 then EntryArg else Skipped
    case TESTNUMBERG | TESTNUMBERY | TESTNUMBERX | TESTLITERALG | TESTLITERALY | TESTLITERALX =>
      if off == 2 then TermArg else Skipped
    case CALLMETHOD => if off == 1 then MethodArg else Skipped
    case TAILSENDMSGG | TAILSENDMSGY | TAILSENDMSGX | SENDMSGG | SENDMSGY | SENDMSGX =>
      if off == 1 then TermArg else if off == 3 then ArityArg else if off == 4 then CacheArg else Skipped
    case INLINEASSIGN | INLINEAT => if off == 1 then TermArg else if off == 3 then CacheArg else Skipped
    case TESTRECORDG | TESTRECORDY | TESTRECORDX =>
      if off == 2 then TermArg else if off == 3 then ArityArg else Skipped
    case MATCHG | MATCHY | MATCHX => if off == 2 then TableArg else Skipped
    case DEBUGEXIT | DEBUGENTRY => if 1 <= off <= 4 then TermArg else Skipped
    case INLINEDOT => if off == 2 then TermArg else if off == 4 then CacheArg else Skipped
    case _ => Skipped
  }

  // The terms that are no literals: numbers, and the position in a debug instruction.
  predicate NeverLiteral(op: Opcode, off: nat) {
    match op
    case GETNUMBERG | GETNUMBERY | GETNUMBERX | UNIFYNUMBER => off == 1
    case TESTNUMBERG | TESTNUMBERY | TESTNUMBERX => off == 2
    case DEBUGEXIT => off == 2 || off == 3
    case DEBUGENTRY => 1 <= off <= 4
    case _ => false
  }

  // What the destructor of a code area gives back together with it.
  predicate Freed(op: Opcode, off: nat) {
    match op
    case CALLMETHOD => off == 1
    case MATCHG | MATCHY | MATCHX => off == 2
    case CALLBI | TESTBI => off == 2
    case _ => false
  }

  // The destructor knows these instructions, the copier does not.
  predicate WalkedOnly(op: Opcode) {
    match op
    case DECONSCALLX | DECONSCALLY | DECONSCALLG | TAILDECONSCALLX | TAILDECONSCALLG | CONSCALLX | CONSCALLY | CONSCALLG
      | TAILCONSCALLX
       | TAILCONSCALLG => true
    case _ => false
  }

  // Both sides agree on the length of every instruction that the copier knows.
  lemma LengthsAgree(op: Opcode)
    ensures CopyLength(op) > 0 ==> WalkLength(op) == CopyLength(op)
  {
  }

  lemma UnknownToCopier(op: Opcode)
    ensures CopyLength(op) == 0 <==> WalkedOnly(op)
    ensures WalkLength(op) > 0
  {
  }

  // What the copier renames are words of the instruction behind the opcode.
  lemma OperandsInside(op: Opcode, off: nat)
    requires !Operand(op, off).Fixed?
    ensures 0 < off < CopyLength(op)
    ensures Operand(op, off).Pred? ==> off == 3 && CopyLength(op) == 6
  {
  }

  lemma CollectorAgrees(op: Opcode)
    ensures CollectLength(op) == WalkLength(op)
  {
  }

  // The copier and the garbage collector agree on what the operands of an instruction are, up to terms that are never
  // renamed.
  lemma OperandsVisited(op: Opcode, off: nat)
    ensures Visited(op, off).TermArg? <==> Operand(op, off).Tagged? || NeverLiteral(op, off)
    ensures Operand(op, off).Tagged? ==> !NeverLiteral(op, off)
    ensures Visited(op, off).ArityArg? <==> Operand(op, off).Arity?
    ensures Visited(op, off).EntryArg? <==> Operand(op, off).Proc?
    ensures Visited(op, off).MethodArg? <==> Operand(op, off).Method?
    ensures Visited(op, off).TableArg? <==> Operand(op, off).Table?
  {
    TermsVisited(op, off);
    TermsCopied(op, off);
    AritiesVisited(op, off);
    EntriesVisited(op, off);
    MethodsVisited(op, off);
    TablesVisited(op, off);
  }

  lemma TermsVisited(op: Opcode, off: nat)
    ensures Operand(op, off).Tagged? ==> Visited(op, off).TermArg? && !NeverLiteral(op, off)
    ensures NeverLiteral(op, off) ==> Visited(op, off).TermArg?
  {
  }

  lemma TermsCopied(op: Opcode, off: nat)
    ensures Visited(op, off).TermArg? ==> Operand(op, off).Tagged? || NeverLiteral(op, off)
  {
  }

  lemma AritiesVisited(op: Opcode, off: nat)
    ensures Visited(op, off).ArityArg? ==> Operand(op, off).Arity?
    ensures Operand(op, off).Arity? ==> Visited(op, off).ArityArg?
  {
  }

  lemma EntriesVisited(op: Opcode, off: nat)
    ensures Visited(op, off).EntryArg? ==> Operand(op, off).Proc?
    ensures Operand(op, off).Proc? ==> Visited(op, off).EntryArg?
  {
  }

  lemma MethodsVisited(op: Opcode, off: nat)
    ensures Visited(op, off).MethodArg? ==> Operand(op, off).Method?
    ensures Operand(op, off).Method? ==> Visited(op, off).MethodArg?
  {
  }

  lemma TablesVisited(op: Opcode, off: nat)
    ensures Visited(op, off).TableArg? ==> Operand(op, off).Table?
    ensures Operand(op, off).Table? ==> Visited(op, off).TableArg?
  {
  }

  // A cache takes two words.
  lemma CachesVisited(op: Opcode, off: nat)
    ensures Operand(op, off).Cache? ==> Visited(op, off).CacheArg? || (off > 0 && Visited(op, off - 1).CacheArg?)
  {
  }

  lemma CachesCopied(op: Opcode, off: nat)
    ensures Visited(op, off).CacheArg? ==> Operand(op, off).Cache? && Operand(op, off + 1).Cache?
  {
  }

  // The collector does not look at the procedure that a definition is for.
  lemma PredsDefined(op: Opcode, off: nat)
    ensures Operand(op, off).Pred? ==> off == 3 && (op == DEFINITION || op == DEFINITIONCOPY)
  {
  }

  // What the destructor gives back is what the copier makes anew for each copy, and the locations of the operands of
  // a builtin, which a copy shares with the original.
  lemma FreedOperands(op: Opcode, off: nat)
    ensures Freed(op, off) ==>
      Operand(op, off).Method? || Operand(op, off).Table? || ((op == CALLBI || op == TESTBI) && off == 2)
    ensures Operand(op, off).Method? ==> Freed(op, off)
    ensures Operand(op, off).Table? ==> Freed(op, off)
  {
    FreedOnly(op, off);
    MethodsFreed(op, off);
    TablesFreed(op, off);
  }

  lemma LocationsShared(op: Opcode)
    requires op.CALLBI? || op.TESTBI?
    ensures Freed(op, 2) && Operand(op, 2).Fixed?
  {
    LocationFreed(op);
  }

  lemma LocationFreed(op: Opcode)
    requires op.CALLBI? || op.TESTBI?
    ensures Freed(op, 2)
  {
  }

  lemma FreedOnly(op: Opcode, off: nat)
    ensures Freed(op, off) ==>
      Operand(op, off).Method? || Operand(op, off).Table? || ((op == CALLBI || op == TESTBI) && off == 2)
  {
  }

  lemma MethodsFreed(op: Opcode, off: nat)
    ensures Operand(op, off).Method? ==> Freed(op, off)
  {
  }

  lemma TablesFreed(op: Opcode, off: nat)
    ensures Operand(op, off).Table? ==> Freed(op, off)
  {
  }
}
