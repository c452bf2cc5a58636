# A model of the es2panda and ts2panda front ends

es2panda turns JavaScript source text into trees with resolved scopes. This project models three parts of it,
and one loop of ts2panda, and proves what they keep and compute.

**Operator re-association.** `ParseBinaryExpression` parses everything right of an operator as a finished tree and
then splices the new `left op` node into that tree's left spine, rewiring one pointer. `NodeParser` is that parser on
heap nodes, with the `while` loop over the spine; `ExpressionParser` is the same on values, next to a reference
grammar that collects a chain of operands and climbs precedences. The two agree on every token sequence, in trees and
in rejections. The argument is that both make the one canonical tree of a chain (`Canonical`, `Reassociation`,
`PrecedenceClimbing`); `CoalesceMixing` shows that checks at the root are enough to keep `??` away from `||` and `&&`.

**The binder.** `Scopes` has scopes and variables as entries of an arena; what is a pointer in the source is an index
here. While parsing, declarations are hoisted or refused (`Redeclaration`, `DeclarationBinder`), and over every run
nothing that was let through clashes, the top of a script aside (`DeclarationRuns`). After parsing, identifier analysis
(`Analysis`) walks the tree, captures variables into environment slots (`Slots`, `References`), declares `arguments`
(`ArgumentsObject`), re-homes the slots of loops that become variable scopes (`Conversion`), and gives every function its
hidden parameters (`MandatoryParams`). One invariant is kept by every step. `Captures` says from the parser's scopes and
the references in the program alone which variables must be captured; `Tracking` shows that the walk captures exactly
those, so the outcome of the analysis is known from the program. `Environments` reads off what generated code relies on:
slots that are dense and distinct, and hop counts that lead to the right environment. `ParameterReferences` says how far
that is true of parameter lists. `LoopAssertion`, `InitialiserCapture`, `ParameterHops` and `NestedArrows` state what the
analysis makes of four programs, the last three put together with `Programs`.

**Text.** `Utf8` and `Mutf8` are the two encodings with their decoders, `StringScanner` is the scanner for string
literals against the meaning in `StringLiterals`, `EscapeSymbol` the printer whose output that scanner reads,
`NumberScanner` the scanners for numeric literals, and `NumericGrammar` compares what they accept with ECMA-262.
`ArrayIndex`, `KeywordSearch` and `PostOrder` are three loops on their own.

## What does not hold

Each of these is proved, with the exact condition or a concrete input.

- The assertion at es2panda/binder/scope.cpp:478 fails if and only if the body scope of a `for` loop has a captured
  `let` of its own while the head declares nothing that was captured (`Conversion.ConvertLoop`). For whole programs: the
  analysis fails if and only if in some loop a reference reaches such a `let` from another function and none reaches a
  declaration of the head (`Analysis.Binder.IdentifierAnalysis`, `Captures.LoopFits`). The parser accepts
  `for (;;) if (c) let y = () => y;`, on which it fails (`LoopAssertion.AnalyseProgram`).
- A reference in a parameter list is looked up from outside its function. It captures a local exactly when the level
  that Find returns is not 0 (`ParameterReferences.ParameterSettledIff`), so in
  `(function () { let x; (function (a = x) {}); });` the inner function is left to read a register of the outer one
  (`InitialiserCapture.AnalyseProgram`). The hop count from a parameter list is right if and only if a parameter was
  found or the function has no environment of its own (`ParameterReferences.ParameterHopsIff`). In
  `(function () { let x; () => x; (function (a = x, b) { () => b; }); });` it leads to the environment of the inner
  function instead of the outer one (`ParameterHops.AnalyseProgram`).
- At the top of a script, `var x; { { var x; } let x; }` is accepted (`DeclarationRuns.ScriptClashAccepted`): `insert`
  does not replace the variable that is there already, so it does not get the mark. Over all runs, a clash is let through
  only for a `var` that met an unmarked variable there (`DeclarationRuns.ClashesAtTop`), and after such a `var` the
  blocks around it accept the `let` if and only if they have no other `x` (`DeclarationRuns.LaterLetIff`).
- The mark outlives its block, so `{ var x; } { let x; }` is refused (`DeclarationRuns.SiblingRefused`). A block accepts
  a `let` if and only if it has no such name and the variable of the function is not marked
  (`DeclarationRuns.LetAcceptedIff`).
- The function object that an arrow with `super` finds as `=f` is its constructor's if and only if every arrow in
  between passes `super` on as well (`MandatoryParams.FunctionObjectIsConstructorsIff`); the arrows with `super` are those
  with a `super` in the tree (`Analysis.Binder.IdentifierAnalysis`). With an arrow without `super` in between it is that
  arrow's, as in `(class extends A { constructor() { () => { () => super(); }; } });` (`NestedArrows.AnalyseProgram`).
- Printing a string and scanning it gives the string back if and only if it has no CR (`EscapeSymbol.PrintAndScan`). A CR
  becomes a LF, and one ASCII character between a CR and a LF is lost (`EscapeSymbol.CharacterLost`).
- Of the literals that begin with a dot, exactly those with a second dot or the suffix `n` are accepted without being in
  the grammar (`NumericGrammar.DotStart`), such as `.5.3` and `.5n` (`NumericGrammar.SecondDotAccepted`,
  `NumericGrammar.SuffixAfterDotAccepted`).
- Of the grammar's literals that begin with `0` and have no radix prefix, exactly those without a separator are accepted
  (`NumericGrammar.ZeroStart`), so `0.1_0` is refused (`NumericGrammar.SeparatorRefused`). With a prefix, or after another
  digit, scanner and grammar agree (`NumericGrammar.ZeroStart`, `NumericGrammar.NonZeroStart`).
- `\u{}` without digits is accepted and stands for U+0000 (`StringLiterals.EmptyBracesAccepted`). Accepted braces have a
  digit if and only if the character after the opening brace is one (`StringLiterals.BracesWithoutDigits`).
- `USE_ARGS` is never set on an arrow (`Analysis.Binder.Marked`), so the lookup of `arguments` at
  es2panda/binder/binder.cpp:500-502 is never made.

## Model
| member | source | states |
|---|---|---|
| NodeParser.Parser.Parse | es2panda/parser/expressionParser.cpp:156-209 | Parsing on heap nodes gives nodes that are exactly the tree of the reference grammar, eats as many tokens, and fails exactly when the reference does |
| ExpressionParser.ParserRefinesReference | es2panda/parser/expressionParser.cpp:156-209 | For every token sequence and position, parse-the-rest-then-splice and chain-then-climb give the same tree or both refuse |
| ExpressionParser.AssignmentRefines | es2panda/parser/expressionParser.cpp:701-817 | From the end of an operand on, the operator and `?:` arms give what the reference makes of the whole chain |
| ExpressionParser.UnaryRefinesOperand | es2panda/parser/expressionParser.cpp:2194-2248 | Prefix operators and parenthesised groups parse as the operands of the reference grammar |
| ExpressionParser.StopsAfter | es2panda/parser/expressionParser.cpp:701-817 | An expression ends where neither an operator nor `?` follows, so nothing is left for the caller to absorb |
| ExpressionParser.AttachExtends | es2panda/parser/expressionParser.cpp:1201-1256 | Attaching one more operand and operator to the tree of a chain, bare or under a `?:`, gives the tree of the longer chain or refuses with it |
| PrecedenceClimbing.ReassociateIsClimbing | es2panda/parser/expressionParser.cpp:1181-1257 | An accepted chain becomes the tree of a precedence climber with the same table, left-associative except for `**` |
| PrecedenceClimbing.AcceptsIff | es2panda/parser/expressionParser.cpp:1186-1248 | A chain is refused exactly when a bare unary stands before `**`, or `??` follows a `\|\|` or `&&`, or one of those is the loosest operator after a `??` |
| Reassociation.SpliceConserves | es2panda/parser/expressionParser.cpp:1206-1248 | The splice puts operand and operator in front and keeps the order of all others; grouped nodes stay whole |
| Reassociation.SpliceIsCanonical | es2panda/parser/expressionParser.cpp:1172-1179 | The splice keeps the canonical shape: no open node binds looser than its open parent, equal levels lean left, `**` leans right |
| Reassociation.AttachConserves | es2panda/parser/expressionParser.cpp:1201-1256 | One call keeps operands and operators in order; with an open conditional on the right, the chain goes to its test and both arms stay |
| PrecedenceClimbing.ReassociateIsCanonical | es2panda/parser/expressionParser.cpp:1181-1257 | What the splicing parser makes of a chain is canonical, over the same operands and operators |
| PrecedenceClimbing.ClimbIsCanonical | es2panda/parser/expressionParser.cpp:1103-1170 | The reference climber makes canonical trees |
| PrecedenceClimbing.ClimbConserves | es2panda/parser/expressionParser.cpp:1103-1170 | The reference climber keeps operands and operators in order |
| Canonical.CanonicalUnique | es2panda/parser/expressionParser.cpp:1172-1179 | A chain has at most one canonical tree |
| Canonical.RootIsLoosest | es2panda/parser/expressionParser.cpp:1206-1244 | The root of a canonical tree is the loosest operator of the chain, so a check at the root sees it |
| CoalesceMixing.AcceptedIsMixFree | es2panda/parser/expressionParser.cpp:1206-1248 | In no accepted tree is an ungrouped `??` directly above or below an ungrouped `\|\|` or `&&` |
| CoalesceMixing.SpliceKeepsMixFree | es2panda/parser/expressionParser.cpp:1206-1248 | The two checks at the root keep the whole spine free of such mixtures |
| NodeParser.Parser.ParseExpression | es2panda/parser/expressionParser.cpp:156-209 | The method refines the function of the same name, on new nodes |
| NodeParser.Parser.ParseUnary | es2panda/parser/expressionParser.cpp:2194-2248 | The method refines the function of the same name; a group is marked on the node itself |
| NodeParser.Parser.ParseAssignment | es2panda/parser/expressionParser.cpp:701-817 | The method refines the function of the same name, adding only new nodes to those of its operand |
| NodeParser.Parser.ParseBinaryExpression | es2panda/parser/expressionParser.cpp:1181-1257 | The method refines the function of the same name |
| NodeParser.Parser.AttachTo | es2panda/parser/expressionParser.cpp:1201-1256 | Rewires the right-hand side in place into the attached tree, changing first links only |
| NodeParser.Parser.Combine | es2panda/parser/expressionParser.cpp:1206-1248 | Refuses exactly on a root mixture, else returns the spliced tree |
| NodeParser.Parser.SpliceIntoSpine | es2panda/parser/expressionParser.cpp:1214-1239 | After the walk, one pointer store makes the tree at the same root the spliced one |
| NodeParser.Parser.WalkSpine | es2panda/parser/expressionParser.cpp:1214-1224 | The loop stops at the last node of the left spine that should be amended, or one below it with it as the parent |
| NodeParser.Rewired | es2panda/parser/expressionParser.cpp:1226-1239 | Redirecting the left link of that node is the splice on the whole tree, and no node is reached twice |
| Scopes.EnclosingVariableScope | es2panda/binder/scope.cpp:37-50 | The first variable scope on the parent chain |
| Scopes.Find | es2panda/binder/scope.cpp:75-100 | The innermost binding on the parent chain, with the number of variable scopes and of environments left behind |
| References.FindIsHolder | es2panda/binder/scope.cpp:75-100 | What Find returns is the innermost scope that binds the name, and it is in the same function if the level is 0 |
| Environments.FirstIsFunctionOrLoop | es2panda/binder/scope.cpp:37-50 | The enclosing variable scope is the function, or a loop around the place that was converted |
| Environments.HopsSkipEnvironments | es2panda/binder/scope.cpp:75-100 | Dropping `lexLevel` environments from the chain of the place leaves those of the scope where the name was found |
| Environments.HopsLeadToBinding | es2panda/binder/scope.cpp:75-100 | From a function body, for a name bound to a captured local, the environment at index `lexLevel` is that of the variable scope around its innermost binding, and has its slot |
| ParameterReferences.ParameterHopsIff | es2panda/compiler/core/function.cpp:55-113 | From a parameter list, whose function has pushed its environment already, the same count leads to the right environment if and only if a parameter was found or the function has no environment |
| ParameterHops.AnalyseProgram | es2panda/compiler/core/function.cpp:55-113 | The analysis of `(function () { let x; () => x; (function (a = x, b) { () => b; }); });` succeeds and captures `x`; the count from the parameter list then leads to the environment of the inner function instead of the outer one |
| ParameterHops.ProgramIsParsed | es2panda/binder/binder.cpp:344-356 | The scopes of that program are ones the parser makes |
| ParameterReferences.ParameterSettledIff | es2panda/binder/binder.cpp:138-159 | A reference from a parameter list captures a local exactly when the level that Find returns is not 0, which is exactly when it is bound outside the function around; it is settled if and only if it finds a parameter, or is captured so, or needs no capture |
| InitialiserCapture.AnalyseProgram | es2panda/binder/binder.cpp:344-356 | The analysis of `(function () { let x; (function (a = x) {}); });` succeeds and leaves `x` without a slot |
| InitialiserCapture.InitialiserReachesOut | es2panda/compiler/core/function.cpp:55-113 | In that program the initialiser reaches the `x` of the outer function, runs in the inner one, and captures nothing |
| InitialiserCapture.ProgramIsParsed | es2panda/binder/binder.cpp:344-356 | The scopes of that program are ones the parser makes |
| Environments.SlotsAreDense | es2panda/binder/scope.h:265-278 | The slots drawn from a function are 0 up to LexicalSlots(), each owned by one variable, and every captured variable of the function has one |
| Environments.SlotsAreDistinct | es2panda/binder/variable.cpp:36-52 | Captured variables of one function have different slots if and only if they are not copies of one another |
| Environments.SlotFitsItsScope | es2panda/binder/scope.cpp:440-487 | After any number of conversions, the slot of every captured variable is below LexicalSlots() of the variable scope around it |
| References.SetLexical | es2panda/binder/variable.cpp:43-52 | A local not yet captured gets the next slot of its function; a captured one keeps its slot; others are left alone |
| Slots.CaptureKeepsInv | es2panda/binder/variable.cpp:43-52 | Capturing keeps the whole invariant, and no slot that was given ever changes |
| Slots.NewVariableKeepsInv | es2panda/binder/variable.cpp:36-41 | A new variable, or a copy with the slot of its original, keeps the invariant |
| Slots.InitScopeKeepsInv | es2panda/binder/scope.cpp:459-464 | The init scope that shares the bindings of a loop head keeps the invariant |
| Slots.RehomingKeepsInv | es2panda/binder/scope.cpp:459-486 | A loop that takes over as many slots as its function has handed out has room for every slot used inside it |
| Slots.SlotsBelowCounter | es2panda/binder/scope.h:265-278 | Whatever is bound in a scope has its slot below the counter of its function |
| SyntaxTree.ScopesFit | es2panda/binder/binder.cpp:272-309 | In a well-scoped tree the scopes collected for loops are loop scopes, each with its head among them, and those for functions are function scopes |
| References.LookupReference | es2panda/binder/binder.cpp:88-97 | Returns what Find returns; a local found at a level other than 0 is captured, and a reference from a function body is settled from then on |
| References.LookupKeepsGood | es2panda/binder/binder.cpp:88-97 | A lookup keeps the slot invariant and every reference resolved before |
| References.PlainLoopsSkipped | es2panda/binder/scope.cpp:37-50 | With no converted loop around, the enclosing variable scope is the function |
| References.CopyKeepsGood | es2panda/binder/scope.cpp:453-456 | A per-iteration copy keeps the invariant and every reference resolved before |
| References.CopyIsFound | es2panda/binder/scope.cpp:446-457 | Everything inside the body finds the copy instead of its original, unless a scope further in binds the name, and the copy has the slot of the original |
| References.ArgumentsKeepResolved | es2panda/binder/binder.cpp:99-136 | Declaring `arguments` leaves every reference resolved before as it was |
| References.MandatoryParamKeepsGood | es2panda/binder/binder.cpp:444-454 | A hidden parameter keeps every reference resolved before |
| ArgumentsObject.FindArgumentsScope | es2panda/binder/binder.cpp:99-113 | The walk goes past arrows to the scope that `arguments` is declared in |
| ArgumentsObject.InstantiateArguments | es2panda/binder/binder.cpp:99-136 | From a body, `arguments` is bound once in the function scope, which is marked in any case; from a parameter list it is bound once in the parameter scope and the function, which is marked when it is new |
| ArgumentsObject.ArgumentsKeepGood | es2panda/binder/binder.cpp:99-136 | Declaring `arguments` keeps the invariant |
| Captures.UserIsMarked | es2panda/binder/binder.cpp:99-136 | With each reference to `arguments`, the function to be marked is exactly the one that joins those that the program says use it |
| Conversion.CopyCaptured | es2panda/binder/scope.cpp:446-457 | Every captured `let` and `const` of the head gets one per-iteration copy in the body, and nothing else changes |
| Conversion.ConvertDecl | es2panda/binder/scope.cpp:440-465 | If the head has captured declarations it becomes a variable scope with max(counted, function) slots and an init scope; else nothing changes; the invariant is kept |
| Conversion.FindCapturedLet | es2panda/binder/scope.cpp:475-482 | Whether the body has a captured `let` of its own |
| Conversion.ConvertLoop | es2panda/binder/scope.cpp:467-487 | The assertion holds if and only if a captured `let` of the body comes with captured declarations in the head; then the invariant is kept and slots stay |
| Conversion.ConvertedHeadReads | es2panda/binder/scope.cpp:440-465 | What a converted head and its body are bound to |
| Captures.RefsAvoid | es2panda/binder/binder.cpp:272-309 | The references in one part of a tree lie in no loop of another part |
| Captures.FitsInTurn | es2panda/binder/scope.cpp:467-487 | Whether the loops of one part meet the assertion does not depend on the references of later parts |
| Captures.NoLetsFit | es2panda/binder/scope.cpp:474-478 | Loops whose body scopes have no `let` of their own meet the assertion, whatever is referred to |
| Tracking.LookupCaptures | es2panda/binder/binder.cpp:138-152 | A lookup during the walk captures exactly the variable that the program text says the reference reaches from another function |
| Tracking.LookupTracks | es2panda/binder/binder.cpp:138-152 | After each lookup, of the parser's variables exactly those are bound to slots that the references resolved so far capture |
| Tracking.ArgumentsTrack | es2panda/binder/binder.cpp:99-136 | Declaring `arguments` changes none of that |
| Tracking.ConversionTracks | es2panda/binder/scope.cpp:440-487 | Nor does the conversion of a loop, outside of which everything is still bound as the parser left it |
| Tracking.LoopReads | es2panda/binder/scope.cpp:446-482 | What the conversion finds captured in a head or body is what the references so far capture there |
| LoopAssertion.ProgramIsParsed | es2panda/binder/scope.cpp:467-487 | The scopes of `for (;;) if (c) let y = () => y;` are ones the parser makes |
| LoopAssertion.AnalyseProgram | es2panda/binder/scope.cpp:478 | The analysis of that program ends at the assertion |
| LoopAssertion.ProgramDoesNotFit | es2panda/binder/scope.cpp:467-487 | In that program the closure captures the `let` of the body, and there is nothing in the head to be captured |
| MandatoryParams.AddMandatoryParam | es2panda/binder/binder.cpp:444-454 | The new parameter comes first, bound only in the function, and the invariant is kept |
| MandatoryParams.AddMandatoryParams | es2panda/binder/binder.cpp:456-461 | The names end up in order in front of the parameters that were there |
| MandatoryParams.HolderIsNearestOf | es2panda/binder/binder.cpp:463-508 | A name declared by exactly the functions of a set is found at the nearest of them |
| MandatoryParams.LookupFromArrow | es2panda/binder/binder.cpp:497-506 | A lookup made for an arrow leaves the arrow (level at least 1), ends at the nearest function that declares the name, and captures the variable |
| MandatoryParams.ServeArrow | es2panda/binder/binder.cpp:479-507 | An arrow ends up with `=t` and `=nt` of its nearest enclosing non-arrow function in an environment, and with `=f` if it passes `super` on |
| MandatoryParams.ServeFunction | es2panda/binder/binder.cpp:472-507 | One round: the three hidden parameters of the right kind in front, and an arrow is served; functions served before stay served |
| MandatoryParams.FindConstructor | es2panda/util/helpers.cpp:144-161 | The constructor of a derived class that an arrow belongs to is its nearest enclosing non-arrow function, if that is one |
| MandatoryParams.FunctionObjectIsConstructorsIff | es2panda/binder/binder.cpp:484-506 | The `=f` that an arrow finds is its constructor's if and only if all arrows in between pass `super` on |
| NestedArrows.AnalyseProgram | es2panda/binder/binder.cpp:484-506 | The analysis of `(class extends A { constructor() { () => { () => super(); }; } });` succeeds, and then a lookup of `=f` from the inner arrow ends at the outer arrow |
| NestedArrows.OuterArrowIsTaken | es2panda/binder/binder.cpp:484-506 | In that program the inner arrow passes `super` on for the constructor, and the nearest function with an `=f` of its own is the outer arrow |
| NestedArrows.ProgramIsParsed | es2panda/binder/binder.cpp:338-343 | The scopes of that program are ones the parser makes, and only the inner arrow is marked by a `super` |
| MandatoryParams.FunctionsInOrder | es2panda/binder/binder.cpp:322-442 | The walk meets functions in pre-order, so outer functions have their parameters first |
| Analysis.LookupIdentReference | es2panda/binder/binder.cpp:138-159 | Resolves one reference, declaring `arguments` where it is asked for; keeps the invariant and marks only functions that are no arrows |
| Analysis.ParsedIsReady | es2panda/binder/binder.cpp:78-86 | A parsed program satisfies all that the analysis starts from |
| Analysis.ParsedIsOrdered | es2panda/binder/binder.cpp:78-86 | In the order of the walk every function comes after the functions around it |
| Analysis.Binder.ResolveReference | es2panda/binder/binder.cpp:322-437 | The walk over any part of the tree meets no failing assertion if and only if its loops fit the references up to there; then it keeps the invariant, returns to its scope, collects its functions in order, settles its references in function bodies, captures exactly what they reach, and marks exactly the functions with a `super` or `arguments` in it |
| Analysis.Binder.ResolveScriptFunction | es2panda/binder/binder.cpp:344-364 | The arm for functions: parameters in the parameter scope, the body in the function scope |
| Analysis.Binder.BuildForUpdateLoop | es2panda/binder/binder.cpp:272-295 | The arm for `for(;;)`: all parts are walked before its scopes are converted |
| Analysis.Binder.BuildForInOfLoop | es2panda/binder/binder.cpp:297-309 | The arm for `for-in` and `for-of`, likewise |
| Analysis.Binder.ConvertLoopScope | es2panda/binder/binder.cpp:290-308 | Converting a loop after its parts fails exactly if the loop does not fit the references so far; else it keeps the invariant and what all loops already walked have become |
| Analysis.Binder.ResolveWhile | es2panda/binder/binder.cpp:405-413 | The arm for `while`: its loop scope is never converted |
| Analysis.Binder.ResolveDoWhile | es2panda/binder/binder.cpp:394-404 | The arm for `do-while`, whose test lies outside its loop scope |
| Analysis.Binder.ResolveScoped | es2panda/binder/binder.cpp:382-393 | The arm for blocks and other nodes with a scope: the walk comes back to the scope it left |
| Analysis.Binder.ResolveReferences | es2panda/binder/binder.cpp:439-442 | A list of parts is walked in order, its loops and functions kept apart |
| Analysis.Binder.ResolveIdentifier | es2panda/binder/binder.cpp:328-337 | The arm for identifiers: the reference is settled |
| Analysis.Binder.ResolveSuper | es2panda/binder/binder.cpp:338-343 | The arm for `super`: the function around it joins those marked, and no other |
| Analysis.Binder.BuildFunction | es2panda/binder/binder.cpp:161-171 | The function is appended to those to be served |
| Analysis.Binder.ServeNext | es2panda/binder/binder.cpp:472-507 | One round of the loop over functions: the next one is served and those before stay so |
| Analysis.Binder.BuildScriptFunction | es2panda/binder/binder.cpp:161-181 | The function is appended to those to be served, and an arrow marks the function around it |
| Analysis.Binder.UseConstructor | es2panda/binder/binder.cpp:484-492 | An arrow passes `super` on exactly under a derived constructor, which is then marked; that it knew of an inner arrow always holds |
| Analysis.Binder.InnerArrowIsKnown | es2panda/binder/binder.cpp:489 | The assertion that the constructor knows of an inner arrow holds |
| Analysis.Binder.AddMandatoryParams | es2panda/binder/binder.cpp:463-508 | After the loop every function has its three hidden parameters in front of its own, and every arrow is served |
| Analysis.Binder.IdentifierAnalysis | es2panda/binder/binder.cpp:78-86 | From any parsed program: it fails if and only if some `for` loop has a body `let` that a reference reaches from another function, below a head in which none is reached; else all slots are in order, exactly the variables so reached are captured, references in bodies are settled, exactly the functions with `super` and with `arguments` in the tree are marked, ordinary names are bound as before, every function and arrow is served |
| Redeclaration.IterateShadowedVariables | es2panda/binder/scope.cpp:113-131 | The first scope up to the function that binds the name to a variable the visitor accepts, else the function |
| Redeclaration.StepKeepsSound | es2panda/binder/scope.cpp:134-189 | A declaration that fits leaves every block without clashes |
| Redeclaration.StepKeepsMarks | es2panda/binder/scope.cpp:139-155 | The mark left on a hoisted `var` survives while a block that it came through is open |
| Redeclaration.StepKeepsInv | es2panda/binder/scope.cpp:134-189 | The whole invariant is kept by a declaration that fits |
| Redeclaration.FunctionFits | es2panda/binder/scope.h:619-691 | In a function scope, what AddVar, AddFunction and AddLexical accept clashes with nothing |
| Redeclaration.BlockVarFits | es2panda/binder/scope.cpp:139-155 | A `var` that is let through a block clashes with no lexical declaration on the way |
| Redeclaration.BlockLexicalFits | es2panda/binder/scope.cpp:168-187 | A lexical declaration that a block accepts clashes with nothing in it, and with no `var` at or below it |
| Redeclaration.CatchParamsDiffer | es2panda/binder/scope.cpp:495-503 | A lexical declaration in a `catch` body differs from the parameter |
| Redeclaration.AcceptedKeepsInv | es2panda/binder/scope.cpp:134-189 | Whatever any scope accepts keeps the invariant |
| Redeclaration.EnterKeepsInv | es2panda/binder/binder.h:146-178 | Opening a new scope keeps the invariant |
| Redeclaration.ExitKeepsInv | es2panda/binder/binder.h:158-162 | Closing a scope keeps the invariant |
| DeclarationRuns.RunsAreSound | es2panda/binder/scope.cpp:113-189 | Over every run of enter, leave and declare steps: if nothing was refused, no block inside a function or module declares a name twice lexically, or a name that a `var` at or below it declares |
| DeclarationRuns.ClashesAtTop | es2panda/binder/scope.cpp:139-155 | Over every run, scripts included: a clash that was let through is with a `var` which, when it was declared, met a variable of that name at the top of the script without the mark |
| DeclarationRuns.RunKeeps | es2panda/binder/scope.cpp:113-189 | Every run keeps the invariant |
| DeclarationRuns.LaterLetIff | es2panda/binder/scope.cpp:134-189 | After a `var x` in a block and any run that stays in an enclosing block, that block accepts `let x` if and only if the `var` met an unmarked `x` at the top of a script and the block has no other `x` |
| DeclarationRuns.UnnoticedIff | es2panda/binder/scope.cpp:147-149 | Right after a `var x`, the same block accepts `let x` if and only if the `var` met an unmarked `x` at the top of a script, and no `catch` parameter has the name |
| DeclarationRuns.MarkStays | es2panda/binder/scope.cpp:139-155 | While a block is open, variables of its function stay marked; at the top of a script they also stay unmarked |
| DeclarationRuns.LetAcceptedIff | es2panda/binder/scope.cpp:168-187 | A block accepts a `let` if and only if it has no such name and the variable of its function is not marked |
| DeclarationRuns.ScriptClashAccepted | es2panda/binder/scope.cpp:148-149 | The script `var x; { { var x; } let x; }` is accepted |
| DeclarationRuns.SiblingRefused | es2panda/binder/scope.cpp:183-187 | `{ var x; } { let x; }` is refused, though nothing in the second block clashes |
| DeclarationBinder.AddLocal | es2panda/binder/scope.cpp:134-189 | The code of AddLocal is the step for declarations in a block |
| DeclarationBinder.AddBinding | es2panda/binder/scope.cpp:251-275 | The scope that the parser is in decides which of them is used, refusing exactly as the step does |
| DeclarationBinder.Binder.AddDecl | es2panda/binder/scope.h:169-173 | Declaring in the current scope is one step of a run |
| DeclarationBinder.Binder.Enter | es2panda/binder/binder.h:146-178 | Entering a scope is one step of a run |
| DeclarationBinder.Binder.Exit | es2panda/binder/binder.h:158-162 | Leaving a scope is one step of a run |
| Utf8.DecodeEncoded | es2panda/util/ustring.h:305-351 | Every code point up to 0x10FFFF is read back from its bytes, and the width of the first byte is their number |
| Utf8.DecodeAt | es2panda/util/ustring.h:305-351 | In encoded text, decoding at the start of a code point gives it and leads to the start of the next |
| Utf8.Iterator.Next | es2panda/util/ustring.h:305-351 | Decodes at the position and moves on by the width |
| Utf8.Iterator.SkipCp | es2panda/util/ustring.cpp:54-81 | Moves on exactly as far as Next does |
| Utf8.Iterator.ReadAll | es2panda/util/ustring.h:305-351 | Reading on to the end gives the code points back (section 3 of RFC 3629) |
| Mutf8.TextReadBack | es2panda/util/ustring.h:435-456 | Modified UTF-8 has no zero byte and none from 0xF0 on, and reads back (section 4.4.7 of the JVM Specification) as the UTF-16 units of the text |
| Mutf8.CodePointReadBack | es2panda/util/ustring.h:435-456 | The same for one code point in front of other text; above 0xFFFF it is the two units of the pair |
| Mutf8.PairEncoding | es2panda/util/ustring.cpp:45-52 | EncodeSurrogate gives the standard pair, and both halves are encoded on their own |
| Mutf8.SurrogatesAreSmaller | es2panda/util/ustring.cpp:45-52 | The recursion ends for every 32-bit argument |
| Mutf8.Mutf8IsInjective | es2panda/util/ustring.h:435-456 | Different strings of scalar values have different Modified UTF-8 |
| Mutf8.ToMutf8 | es2panda/util/ustring.cpp:22-34 | The loop over decoded text gives the concatenated encodings |
| StringScanner.Lexer.ScanString | es2panda/lexer/lexer.h:208-301 | For quotes and templates, copying segments between escapes gives the UTF-8 of the string's meaning code point by code point, stops where it ends, counts its lines, and refuses exactly what has no meaning |
| StringScanner.Lexer.Replaced | es2panda/lexer/lexer.h:225-257 | Copying the segment and appending what an escape or line terminator stands for keeps text and meaning in step |
| StringScanner.Lexer.KeptOn | es2panda/lexer/lexer.h:258-284 | An ordinary character joins the segment |
| StringScanner.Lexer.ScanStringUnicodePart | es2panda/lexer/lexer.cpp:529-611 | One escape: what it stands for is appended, line continuations give nothing and count a line; refused exactly when it has no meaning |
| StringScanner.Lexer.ScanHexEscape | es2panda/lexer/lexer.h:303-321 | Exactly `n` hexadecimal digits |
| StringScanner.Lexer.ScanUnicodeCodePointEscape | es2panda/lexer/lexer.cpp:53-79 | Hexadecimal digits up to a brace, refused at the digit that goes beyond 0x10FFFF |
| StringScanner.Lexer.ScanUnicodeEscapeSequence | es2panda/lexer/lexer.cpp:39-51 | Four digits or braces after `\u` |
| StringScanner.HexValueIsDigitValue | es2panda/lexer/lexer.h:409-414 | One subtraction and a mask give the value of digits of either case |
| StringScanner.PeekAt | es2panda/util/ustring.h:153-156 | Peek sees ASCII as itself and any other character as a value that equals no character constant, since char is signed |
| StringScanner.Segment | es2panda/lexer/lexer.h:287-292 | The bytes of a segment are the encoding of its code points |
| StringLiterals.NumericEscapeDenotes | es2panda/lexer/lexer.cpp:39-79 | A numeric escape stands for the code point whose hexadecimal digits it writes out |
| StringLiterals.BracesWithoutDigits | es2panda/lexer/lexer.cpp:53-79 | Between accepted braces of `\u{}` stands a digit if and only if one follows the opening brace; else the escape stands for U+0000 |
| StringLiterals.EmptyBracesAccepted | es2panda/lexer/lexer.cpp:53-79 | `\u{}` is accepted as U+0000 |
| StringLiterals.StringCloses | es2panda/lexer/lexer.h:208-301 | A string ends at its quote, or in a template at `${` |
| EscapeSymbol.EscapeSymbol | es2panda/util/ustring.h:353-407 | The bytes printed are the encoding of the printed characters, CR handling included |
| EscapeSymbol.PrintedMeans | es2panda/util/ustring.h:353-407 | Printed text followed by a quote means what was legible of the string, wherever it stands |
| EscapeSymbol.LegibleIff | es2panda/util/ustring.h:353-407 | All of a string is legible if and only if it has no CR |
| EscapeSymbol.CharacterLost | es2panda/util/ustring.h:353-407 | Of CR, `A`, LF only two LF are left in print |
| EscapeSymbol.PrintAndScan | es2panda/util/ustring.h:353-407 | Scanning the printed string and its quote never fails and stops just past the quote; the result is the string if and only if it has no CR |
| NumberScanner.ScanNumberRadix | es2panda/lexer/lexer.h:323-364 | Takes the longest run of digits and separators, accepts it exactly if every separator is between two digits, and computes the positional value |
| NumberScanner.PositionalExtended | es2panda/lexer/lexer.h:337-342 | Multiplying by the base and adding is the sum of digits times powers of the base |
| NumberScanner.ScanDecimalNumbers | es2panda/lexer/lexer.cpp:279-320 | Takes the longest run of decimal digits and separators and accepts it exactly if every separator is between two digits |
| NumberScanner.ScanNumber | es2panda/lexer/lexer.cpp:354-423 | Accepts exactly the literals with separators between digits only, a digit in the exponent, `n` only after an integer, and neither digit nor identifier behind |
| NumberScanner.ScanExponent | es2panda/lexer/lexer.cpp:375-410 | The exponent, and where its sign is missing |
| NumberScanner.RunsJoin | es2panda/lexer/lexer.cpp:354-410 | All separators of a literal lie in its integer, fraction and exponent runs |
| NumberScanner.CheckNumberLiteralEnd | es2panda/lexer/lexer.cpp:201-213 | The `n` of a BigInt, and what may not follow |
| NumberScanner.ScanNumberLeadingZero | es2panda/lexer/lexer.cpp:215-277 | The radix by its letter; without one, no digit may follow the zero and no separator is accepted |
| NumericGrammar.NonZeroStart | es2panda/lexer/lexer.cpp:354-423 | After a digit other than zero, ScanNumber accepts exactly the literals of section 12.9.3 of ECMA-262 that end cleanly |
| NumericGrammar.DotStart | es2panda/lexer/lexer.cpp:912-922 | Of what it accepts after a dot, exactly the literals with a second dot or the suffix `n` are not in the grammar |
| NumericGrammar.ZeroStart | es2panda/lexer/lexer.cpp:215-277 | After a zero, a literal of the grammar is accepted if and only if it has a radix prefix or no separator |
| NumericGrammar.LongestMatch | es2panda/lexer/lexer.cpp:279-320 | No literal of the grammar that starts at the token is longer than what was scanned |
| NumericGrammar.DigitsIff | es2panda/lexer/lexer.cpp:279-320 | Digits as the grammar builds them up are the runs whose separators stand between two digits |
| NumericGrammar.SecondDotAccepted | es2panda/lexer/lexer.cpp:363-373 | `.5.3` is accepted as one literal, and is none |
| NumericGrammar.SuffixAfterDotAccepted | es2panda/lexer/lexer.cpp:414-420 | `.5n` is accepted as one literal, and is none |
| NumericGrammar.SeparatorRefused | es2panda/lexer/lexer.cpp:276 | `0.1_0` is a literal and refused |
| ArrayIndex.GetIndex | es2panda/util/helpers.cpp:87-111 | Returns n other than INVALID_INDEX if and only if the string is the canonical numeral of n and n is below 2^32 - 1; 64 bits never overflow |
| ArrayIndex.CanonicalIsNumeral | es2panda/util/helpers.cpp:87-111 | Digits without a leading zero are the numeral of their value |
| ArrayIndex.NumeralIsCanonical | es2panda/util/helpers.cpp:87-111 | A numeral has no leading zero and its own value |
| KeywordSearch.ScanIdContinueMaybeKeyword | es2panda/lexer/keywordsUtil.cpp:253-287 | On a strictly sorted map, SetKeyword is called once if the identifier is present, with that keyword, and not at all otherwise; the search ends |
| KeywordSearch.CompareTransitive | es2panda/lexer/keywordsUtil.cpp:270 | Comparing strings is transitive |
| PostOrder.PostOrderAnalysis | ts2panda/src/compilerDriver.ts:130-148 | The stack loop and the reversal give left-to-right post-order |
| PostOrder.PendingPopped | ts2panda/src/compilerDriver.ts:135-145 | One round moves a scope to the output and its children to the stack; one scope less is left |
| PostOrder.DescendantsFirst | ts2panda/src/compilerDriver.ts:130-148 | The scope at any position comes right after exactly its own descendants, in post-order |

## Left out
- Scopes and variables are entries of sequences, not objects: pointers are indices, and updates in place are updates of the sequence held by the binder. No two pointers to one object with different views are lost by this, since all go through the arena; allocation itself is not modelled.
- Redeclaration and identifier analysis are separate runs: the second starts from any arena the parser could have left (`Analysis.Parsed`), not from the result of the first.
- The parameter scope of a function is one with its function scope while declaring (`DeclarationRuns`); identifier analysis has both.
- Class declarations are `let` declarations, as in the code; the constant a class declares in its own scope is not modelled.
- Closures in parameter initialisers and class field initialisers: functions stand in function bodies only (`SyntaxTree.WellScoped`), and loops, too.
- References.LookupReference: references in parameter lists are not claimed to be settled, since they are not; `ParameterReferences.ParameterSettledIff` says when they are.
- The name that a function expression binds for itself, which code generation stores before the parameters.
- The TDZ flag, imports and exports, module variables, and TypeScript bindings. Module-level declarations behave as those of a function.
- Redeclaration: destructured `catch` parameters.
- Full ECMAScript precedence: results are relative to the code's own table, in which `&&` and `|` share a level.
- Source ranges of spliced nodes, and the kinds and positions of syntax errors: errors are one value.
- Assignments, arrows, `yield`, `as`, comma sequences, and `in` under STOP_AT_IN; a left-hand-side expression is one token, and what ValidateParenthesizedExpression asks of groups is left out.
- Utf8: ill-formed or truncated input, which the iterator reads past the end of.
- Mutf8: DecodeSurrogates subtracts SURROGATE_LOW_MAX (es2panda/util/ustring.cpp:40); reading back uses the standard inverse instead.
- StringScanner: code positions are bytes; the token's start and the template context are not modelled, and Rewind does not occur.
- NumberScanner: the conversion of decimal literals by stold, and the removal of separators before it; that an identifier may start at a character is a parameter (ICU). ScanNumberRadix computes over the reals, without rounding.
- NumberScanner.ScanNumber: the test after a dot that is always true, and the branch behind it, are not written out.
- KeywordSearch: scanning the identifier itself, and what SetKeyword does with the token.
- Whitespace, comments, punctuators, regular expressions, templates other than their text, the checker, code generation, AST dumps, and the command line.
