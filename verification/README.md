# Proofs about BehaviorTree.CPP and its vendored libraries

BehaviorTree.CPP runs behavior trees: it reads them from XML, compiles the scripts in their
attributes, shares data over blackboards and runs actions in threads and coroutines. This project
models the parts of it whose correctness rests on an argument rather than on a library call, and
proves what they are meant to do. The setup script that orders the packages of a workspace is
modelled as well.

| file | subject |
|---|---|
| `ScriptTokens`, `ScriptTokenizer`, `ScriptLexemes` | tokens of the scripting language |
| `ScriptParser`, `ScriptGrammar`, `ScriptPrinter`, `ScriptFrontEnd` | the Pratt parser, the grammar it accepts, printing with fewest parentheses |
| `ScriptPrecedence`, `ScriptSpelling`, `NumberText` | precedence without binding powers; how operators and numbers are written |
| `XmlText`, `XmlParser`, `XmlPrinter`, `XmlRoundTrip` | tinyxml2: entities, parser, printer, and that parsing undoes printing |
| `XmlReading`, `XmlGrammar`, `XmlLayout` | what raw text stands for, which texts parse, how printed text looks |
| `XmlLinks`, `XmlForest` | tinyxml2: the doubly linked child lists, and that they stay a forest |
| `Minitrace` | the double-buffered flush, in every interleaving |
| `ThreadedAction`, `ThreadedResults` | the handshake of worker and ticking thread, and what a session comes to, in every interleaving |
| `Blackboard`, `BlackboardBackup`, `BlackboardLocks`, `BlackboardRaces` | lookup and creation over a forest of boards, backup and restore, the locks and what they guard |
| `Subtrees`, `SubtreeListing` | instantiation of a tree from its XML, step by step and as a whole |
| `TreeHalt` | halting a whole tree |
| `Coroutines`, `CoroutineScheduler`, `CoroutineLayout` | minicoro: nesting of coroutines, what the calls amount to, layout of their blocks |
| `Multipart` | the codec for multipart messages in cppzmq |
| `PackageOrder` | the order in which the setup script sources packages |

Objects that the source changes in place are classes, with methods that change them in place; each
method is proved to do what a function on a snapshot of the objects says, and the theorems are about
these functions. Concurrent protocols are step systems: a step is what a thread does between two
points where another can get in, and the theorems hold for every schedule.

## How the source is read

- Characters stand for bytes. A text that is parsed ends at its first NUL.
- Input from outside (what a user's tick returns, whether a value or the text of a real literal can
  be converted, whether the stack check passes) is a parameter, so every outcome is covered.
- What is done under a mutex is one step where all that touches the same data takes that mutex.
- A context switch is the end of the step that makes it. Clocks are left out, so time stamps are.
- Sizes are unbounded where the source assumes they do not overflow. Where width matters it is
  explicit: the 16-bit UIDs, the 32-bit sizes of message parts, the 32-bit code points of character
  references, the 64-bit addresses of coroutine blocks.
- The functions that say what an in-place method does are separate from what is then proved about
  them: grammars, list of lexemes, order of the operators, reading of raw text, layout, unfolding,
  greatest supported set, stack of coroutines and message format are defined on their own, without the
  constants and tables of the functions.

Where code and comments disagree the code is modelled:

- The comments at script_parser.cpp:268 and 275 call assignment and ternary non-associative. Both nest
  to the right, because their right sides are parsed with a low binding power; `ParserIsGrammar` says so.
- The comment at bt_factory.cpp:639 calls the second pass of haltTree a no-op. `SecondPassExactly` says
  when it changes no status; it runs the halting scripts once more in any case (`ScriptsRun`).

Findings, each a lemma:

- `halt` does not clear the exception a worker left, so the next session can throw it
  (`LeakHappens`, `StaleExactly`).
- A worker whose tick threw cannot set the status to IDLE, because setStatus refuses that, so the node
  stays RUNNING (`FailureSticks`).
- A remapping target that begins with `@` is stored literally by createEntryImpl but taken for a key of
  the root by getEntry (`AgreeExactly`, `AtTargetLost`, `AtTargetExample`).
- InsertAfterChild follows a null link when the node to insert is the last child, right behind the
  given one (`InsertAfterChild`, `NullLinkExample`).
- debugMessage and createEntryImpl read the types of entries without entry_mutex, under which set may
  change them (`PeekingRaces`).
- A decimal character reference to a number with too many digits can decode as another character:
  `&#10000000;` gives U+10FFFF (`LongNumeral`, `ReferenceExactly`).
- The parser ends without an error at an end tag that belongs to no element, ignores attributes of end
  tags, and takes `</a/>` for an empty element: so says the grammar of `ParsesExactly`.
- An & that starts no entity is not copied to where the decoded text has come to, so behind an entity or
  a joined line end it turns into another character (`LoneAmpersand`, `AmpersandLost`).
- UIDs start again after 65535 nodes, and only then can generated subtree names clash
  (`AutoNamesNeverClash`, `NamesClashExactly`).
- A real literal out of range, such as `1e999`, is a valid lexeme but makes the script an error
  (`OutOfRange`, `RealRefused`), while an integer out of range becomes 0.

## Model

| member | source | states |
|---|---|---|
| `ScriptTokenizer.ScanHexNumber` | src/BehaviorTree.CPP/src/script_tokenizer.cpp:58-80 | the scanner for hexadecimal numbers ends where, and fails when, its specification says |
| `ScriptTokenizer.ScanDecimalNumber` | src/BehaviorTree.CPP/src/script_tokenizer.cpp:82-147 | the same for decimal numbers: fraction, exponent, the `..` operator left alone, letters glued on an error |
| `ScriptTokenizer.TokenizeScript` | src/BehaviorTree.CPP/src/script_tokenizer.cpp:223-338 | the loop over the text returns exactly the specified token list |
| `ScriptLexemes.ScanSound` | src/BehaviorTree.CPP/src/script_tokenizer.cpp:255-334 | one token is spelled in the text just where it was found, and unless it is an Error it is a lexeme by an independent definition |
| `ScriptLexemes.TokensCover` | src/BehaviorTree.CPP/src/script_tokenizer.cpp:223-338 | spans strictly increase, do not overlap and leave out nothing but white space; every token is a valid lexeme, an Error or the end |
| `ScriptLexemes.TokensTerminated` | src/BehaviorTree.CPP/src/script_tokenizer.cpp:333-338 | there is exactly one EndOfInput, and it comes last |
| `ScriptLexemes.Recognised` | src/BehaviorTree.CPP/src/script_tokenizer.cpp:223-338 | each valid lexeme, wherever it stands and may end, is scanned as that lexeme |
| `ScriptLexemes.ScanExactly` | src/BehaviorTree.CPP/src/script_tokenizer.cpp:223-338 | a token that is no Error is found if and only if such a lexeme stands there and ends where it may; otherwise the token is an Error |
| `ScriptLexemes.TokenizeRender` | src/BehaviorTree.CPP/src/script_tokenizer.cpp:223-338 | tokenizing any list of valid lexemes written with spaces gives the same kinds and texts |
| `ScriptSpelling.CharacterClasses` | src/BehaviorTree.CPP/src/script_tokenizer.cpp:23-43 | white space, digits, and what starts a name and goes on with it are these characters |
| `ScriptSpelling.BinaryByText` | src/BehaviorTree.CPP/src/script_parser.cpp:377-418 | a token spelled like a binary operator is parsed as that operator |
| `ScriptSpelling.UnaryByText` | src/BehaviorTree.CPP/src/script_parser.cpp:167-190 | likewise for prefix operators |
| `ScriptSpelling.CompareByText` | src/BehaviorTree.CPP/src/script_parser.cpp:356-375 | for comparisons |
| `ScriptSpelling.AssignByText` | src/BehaviorTree.CPP/src/script_parser.cpp:299-329 | and for assignments |
| `ScriptSpelling.OperatorsRead` | src/BehaviorTree.CPP/src/script_tokenizer.cpp:149-221 | the text of a binary operator, where it may end, is scanned and parsed as that operator |
| `ScriptSpelling.OperandsRead` | src/BehaviorTree.CPP/src/script_parser.cpp:199-242 | an operand, where it may end, is scanned and stands for what is written: true and false, a string for what is between its quotes, names and numbers for themselves |
| `ScriptSpelling.IntegerLiteral` | src/BehaviorTree.CPP/src/script_parser.cpp:208-222 | a decimal or hexadecimal literal stands for the number its digits denote, or for 0 if that needs more than 63 bits |
| `ScriptParser.Parser.ParsePrefixHere` | src/BehaviorTree.CPP/src/script_parser.cpp:163-250 | parsePrefix: tree, error and new index are those of the specification, a real literal out of range being an error; the index stays inside the list |
| `ScriptParser.Parser.ParseExprHere` | src/BehaviorTree.CPP/src/script_parser.cpp:255-297 | parseExpr(minBP), with its loop over infix operators, likewise |
| `ScriptParser.Parser.ParseAssignmentHere` | src/BehaviorTree.CPP/src/script_parser.cpp:299-329 | an assignment takes parseExpr(0) for its right side |
| `ScriptParser.Parser.ParseTernaryHere` | src/BehaviorTree.CPP/src/script_parser.cpp:331-339 | a ternary takes parseExpr(0) and parseExpr(kTernaryBP) for its branches, and needs the colon |
| `ScriptParser.Parser.ParseChainHere` | src/BehaviorTree.CPP/src/script_parser.cpp:341-354 | comparisons in a row become one node with one operand more than operators |
| `ScriptParser.Parser.ParseStatements` | src/BehaviorTree.CPP/src/script_parser.cpp:31-44 | parseAll: the statements of the specification, with the index at the final EndOfInput on success |
| `ScriptGrammar.ReadsAll` | src/BehaviorTree.CPP/src/script_parser.cpp:255-297 | completeness: the tokens of any tree whose unparenthesised children respect the binding powers parse to its meaning, in every context that lets it stand, if their real literals convert |
| `ScriptGrammar.ExprSound` | src/BehaviorTree.CPP/src/script_parser.cpp:255-297 | soundness: whatever parseExpr accepts is the in-order yield of such a tree, of at least the level asked for |
| `ScriptGrammar.ParserIsGrammar` | src/BehaviorTree.CPP/src/script_parser.cpp:31-44 | parseAll returns these statements if and only if the tokens, less the end, are a script of the grammar that means them and all real literals in them convert |
| `ScriptGrammar.Unambiguous` | src/BehaviorTree.CPP/src/script_parser.cpp:31-44 | two scripts with the same tokens mean the same |
| `ScriptPrinter.BareIsRight` | src/BehaviorTree.CPP/src/script_parser.cpp:96-135 | printing with parentheses only where the binding powers demand them respects them and keeps the meaning |
| `ScriptPrinter.Fewest` | src/BehaviorTree.CPP/src/script_parser.cpp:255-297 | no tree with the same meaning, fit for the same place, has fewer parentheses |
| `ScriptPrinter.ParsePrinted` | src/BehaviorTree.CPP/src/script_parser.cpp:163-419 | printing any expressions with fewest parentheses, tokenizing and parsing the text gives exactly these expressions, if and only if their real literals convert |
| `ScriptPrinter.RealRefused` | src/BehaviorTree.CPP/src/script_parser.cpp:224-230 | a statement that starts with a real literal out of range is refused, whatever follows |
| `ScriptPrinter.OutOfRange` | src/BehaviorTree.CPP/src/basic_types.cpp:199-221 | so is 1e999, though it is a valid lexeme, unless it converts |
| `ScriptFrontEnd.ParseStatements` | src/BehaviorTree.CPP/src/script_parser.cpp:421-426 | from the text: success with these statements exactly when the text is a script that means them and their real literals convert |
| `ScriptFrontEnd.ValidateScript` | src/BehaviorTree.CPP/src/script_parser.cpp:479-494 | accepted exactly for a grammatical list of one or more statements whose real literals convert; "Empty Script" exactly for white space; else an error |
| `ScriptPrecedence.OrderIsBinding` | src/BehaviorTree.CPP/src/script_parser.cpp:96-135 | a tree respects the binding powers if and only if it respects an order of ten levels of operators that is given without numbers from the parser |
| `ScriptPrecedence.ParserFollowsTiers` | src/BehaviorTree.CPP/src/script_parser.cpp:255-297 | the parser returns these statements exactly if the tokens are a script in that order that means them |
| `ScriptPrecedence.TwoOperators` | src/BehaviorTree.CPP/src/script_parser.cpp:96-135 | a o b p c, for any operands and binary operators, is (a o b) p c if o is at least as high as p in that order, and otherwise a o (b p c) |
| `ScriptPrecedence.OperatorBeforeComparison` | src/BehaviorTree.CPP/src/script_parser.cpp:341-354 | the same with a comparison behind the operator |
| `ScriptPrecedence.OperatorAfterComparison` | src/BehaviorTree.CPP/src/script_parser.cpp:341-354 | and in front of it |
| `ScriptPrecedence.ComparisonsChain` | src/BehaviorTree.CPP/src/script_parser.cpp:341-354 | two comparisons become one chain of three operands |
| `ScriptPrecedence.OperatorBeforeTernary` | src/BehaviorTree.CPP/src/script_parser.cpp:331-339 | the condition of a ternary takes any operator or comparison whole |
| `ScriptPrecedence.OperatorAfterTernary` | src/BehaviorTree.CPP/src/script_parser.cpp:331-339 | so does its last branch |
| `ScriptPrecedence.OperatorBeforeAssignment` | src/BehaviorTree.CPP/src/script_parser.cpp:299-329 | every operator binds tighter than an assignment behind it |
| `ScriptPrecedence.OperatorAfterAssignment` | src/BehaviorTree.CPP/src/script_parser.cpp:299-329 | and than one in front of it |
| `ScriptPrecedence.TernaryAfterAssignment` | src/BehaviorTree.CPP/src/script_parser.cpp:299-339 | an assignment takes a ternary whole |
| `ScriptPrecedence.OperatorAfterPrefix` | src/BehaviorTree.CPP/src/script_parser.cpp:163-180 | a prefix operator takes its operand alone |
| `ScriptPrecedence.TernariesNest` | src/BehaviorTree.CPP/src/script_parser.cpp:331-339 | ternaries nest to the right |
| `ScriptPrecedence.AssignmentsNest` | src/BehaviorTree.CPP/src/script_parser.cpp:299-329 | so do assignments |
| `XmlText.DecodeEscape` | src/BehaviorTree.CPP/3rdparty/tinyxml2/tinyxml2.cpp:281-379 | decoding undoes escaping, wherever the read and write pointers are, for text without NUL and CR |
| `XmlText.EscapeHasNo` | src/BehaviorTree.CPP/3rdparty/tinyxml2/tinyxml2.cpp:2664-2716 | escaped text contains none of the characters that are escaped, save the ampersand |
| `XmlText.GetStr` | src/BehaviorTree.CPP/3rdparty/tinyxml2/tinyxml2.cpp:281-379 | the in-place decoder leaves the decoded value, NUL-terminated, at the start of the span and nothing else changed, and never writes past what it has read |
| `XmlReading.DecodesToReading` | src/BehaviorTree.CPP/3rdparty/tinyxml2/tinyxml2.cpp:281-379 | raw text in which each & starts one of the five entities decodes to what it stands for, read from left to right: CR LF, LF CR, CR and LF each give one line feed, an entity its character, all else itself; no CR is left |
| `XmlReading.LoneAmpersand` | src/BehaviorTree.CPP/3rdparty/tinyxml2/tinyxml2.cpp:355-361 | an & that starts nothing known becomes the character the raw text has where the result has come to: itself exactly if that is an & |
| `XmlReading.AmpersandLost` | src/BehaviorTree.CPP/3rdparty/tinyxml2/tinyxml2.cpp:355-361 | so one behind an entity can become another character: a concrete text |
| `XmlReading.WindowsLineEnds` | src/BehaviorTree.CPP/3rdparty/tinyxml2/tinyxml2.cpp:294-314 | CR LF between two characters gives one line feed |
| `XmlReading.NumericReference` | src/BehaviorTree.CPP/3rdparty/tinyxml2/tinyxml2.cpp:470-552 | a decimal or hexadecimal reference to a number up to 0x10FFFF gives its character in UTF-8 |
| `XmlReading.Utf8IsRight` | src/BehaviorTree.CPP/3rdparty/tinyxml2/tinyxml2.cpp:417-467 | and the bytes are those of UTF-8 by its definition |
| `XmlReading.ReferenceExactly` | src/BehaviorTree.CPP/3rdparty/tinyxml2/tinyxml2.cpp:470-552 | a reference with digits of any number is read as what they weigh, in 32 bits, a weight being that of the place but 0x10FFFF at most, or left alone if that is no code point |
| `XmlReading.LongNumeral` | src/BehaviorTree.CPP/3rdparty/tinyxml2/tinyxml2.cpp:505-545 | a decimal reference to a larger number can decode as another character: a concrete one |
| `XmlLayout.EscapedCharacters` | src/BehaviorTree.CPP/3rdparty/tinyxml2/tinyxml2.cpp:142-149 | the text that is written for each character |
| `XmlParser.ScanAttribute` | src/BehaviorTree.CPP/3rdparty/tinyxml2/tinyxml2.cpp:1442-1467 | one attribute: name, equals sign and quoted value as specified |
| `XmlParser.ScanAttributes` | src/BehaviorTree.CPP/3rdparty/tinyxml2/tinyxml2.cpp:1959-2016 | the attributes of a tag; a second attribute of the same name is an error |
| `XmlParser.ScanHead` | src/BehaviorTree.CPP/3rdparty/tinyxml2/tinyxml2.cpp:2075-2100 | name, attributes and closing type of a tag |
| `XmlParser.Document.ParseElement` | src/BehaviorTree.CPP/3rdparty/tinyxml2/tinyxml2.cpp:2075-2100 | the tag and, if it opens an element, its nodes and the end tag handed back to the caller |
| `XmlParser.Document.ParseDeep` | src/BehaviorTree.CPP/3rdparty/tinyxml2/tinyxml2.cpp:1072-1186 | the loop over the nodes of a level does what the specification says, with the nesting depth put back and its limit kept |
| `XmlParser.Document.Parse` | src/BehaviorTree.CPP/3rdparty/tinyxml2/tinyxml2.cpp:2550-2563 | the whole text: nodes or the first error |
| `XmlGrammar.CharacterClasses` | src/BehaviorTree.CPP/3rdparty/tinyxml2/tinyxml2.h:571-595 | the bytes that are white space, start a name, and go on with it |
| `XmlGrammar.ParsesExactly` | src/BehaviorTree.CPP/3rdparty/tinyxml2/tinyxml2.cpp:1072-1186 | a text parses to these nodes if and only if it has a reading in a grammar of tags, attributes in either quotes, sealed elements and matching end tags that means them |
| `XmlGrammar.EmptyExactly` | src/BehaviorTree.CPP/3rdparty/tinyxml2/tinyxml2.cpp:2550-2563 | a document is called empty exactly if there is nothing but white space or a byte order mark |
| `XmlLayout.CompactIs` | src/BehaviorTree.CPP/3rdparty/tinyxml2/tinyxml2.cpp:2722-2758 | in compact mode a document is printed without any white space of the printer's own |
| `XmlLayout.PrettyIs` | src/BehaviorTree.CPP/3rdparty/tinyxml2/tinyxml2.cpp:2722-2845 | otherwise each element has its own lines, four spaces further in than its parent, if none has both texts and elements in it |
| `XmlPrinter.Printer.PrintString` | src/BehaviorTree.CPP/3rdparty/tinyxml2/tinyxml2.cpp:2664-2716 | appends the escaped string, run by run |
| `XmlPrinter.Printer.OpenElement` | src/BehaviorTree.CPP/3rdparty/tinyxml2/tinyxml2.cpp:2748-2758 | seals the tag before, adds the margin and the opening of the tag, pushes the name |
| `XmlPrinter.Printer.PushAttribute` | src/BehaviorTree.CPP/3rdparty/tinyxml2/tinyxml2.cpp:2761-2769 | appends one attribute with its value escaped |
| `XmlPrinter.Printer.CloseElement` | src/BehaviorTree.CPP/3rdparty/tinyxml2/tinyxml2.cpp:2820-2845 | seals or closes the tag on top of the stack, and resets the text depth exactly at its own depth |
| `XmlPrinter.Printer.PushText` | src/BehaviorTree.CPP/3rdparty/tinyxml2/tinyxml2.cpp:2858-2871 | seals the tag, remembers that this level holds text, appends the escaped text |
| `XmlPrinter.Printer.PrintNode` | src/BehaviorTree.CPP/3rdparty/tinyxml2/tinyxml2.cpp:2970-2997 | visiting a node appends exactly its specified text and leaves depth and stack as they were |
| `XmlPrinter.Printer.PrintAll` | src/BehaviorTree.CPP/3rdparty/tinyxml2/tinyxml2.cpp:2478-2488 | printing a document gives its specified text, compact or indented |
| `XmlRoundTrip.ParsesNodes` | src/BehaviorTree.CPP/3rdparty/tinyxml2/tinyxml2.cpp:1072-1186 | the parser reads back written nodes, one by one, in any place the printer puts them |
| `XmlRoundTrip.NodesTooDeep` | src/BehaviorTree.CPP/3rdparty/tinyxml2/tinyxml2.cpp:2566-2572 | nodes nested to the limit or beyond end in the depth error, whatever comes before them |
| `XmlRoundTrip.ParsePrint` | src/BehaviorTree.CPP/3rdparty/tinyxml2/tinyxml2.cpp:1072-1186 | printing any document of elements and texts, compact or indented, and parsing the text gives back the same document; exactly when the nesting reaches the limit the result is the depth error instead |
| `XmlLinks.UnlinkKeeps` | src/BehaviorTree.CPP/3rdparty/tinyxml2/tinyxml2.cpp:888-909 | taking a child out keeps all child lists doubly linked |
| `XmlLinks.AttachKeeps` | src/BehaviorTree.CPP/3rdparty/tinyxml2/tinyxml2.cpp:925-1019 | putting an unattached node anywhere into a list keeps them so |
| `XmlLinks.XmlNode.Unlink` | src/BehaviorTree.CPP/3rdparty/tinyxml2/tinyxml2.cpp:888-909 | the rewritten links are those of the list without the child |
| `XmlLinks.XmlNode.InsertChildPreamble` | src/BehaviorTree.CPP/3rdparty/tinyxml2/tinyxml2.cpp:1203-1215 | the node is taken out of the list it was in, if any |
| `XmlLinks.XmlNode.InsertEndChild` | src/BehaviorTree.CPP/3rdparty/tinyxml2/tinyxml2.cpp:925-952 | refused across documents; otherwise the node is moved, also from another parent, to the end of the list, and all lists stay well formed |
| `XmlLinks.XmlNode.InsertFirstChild` | src/BehaviorTree.CPP/3rdparty/tinyxml2/tinyxml2.cpp:955-983 | the same, to the front |
| `XmlLinks.XmlNode.InsertAfterChild` | src/BehaviorTree.CPP/3rdparty/tinyxml2/tinyxml2.cpp:986-1019 | the same, behind a given child; the null link of line 1015 is followed exactly if the node to insert is the last child, right behind that child |
| `XmlForest.NullLinkExample` | src/BehaviorTree.CPP/3rdparty/tinyxml2/tinyxml2.cpp:1012-1015 | it is followed at a node with two children, the second to be put behind the first |
| `XmlForest.MoveKeepsForest` | src/BehaviorTree.CPP/3rdparty/tinyxml2/tinyxml2.cpp:925-1019 | a node moved under another leaves the nodes a forest if and only if the other was neither that node nor below it |
| `XmlForest.InsertionMoves` | src/BehaviorTree.CPP/3rdparty/tinyxml2/tinyxml2.cpp:1203-1215 | what the insertions promise of the child lists makes them such a move |
| `Minitrace.StepKeeps` | src/BehaviorTree.CPP/3rdparty/minitrace/minitrace.cpp:265-432 | every step of every thread keeps the invariant of locks, claims, counters and slots |
| `Minitrace.RunKeeps` | src/BehaviorTree.CPP/3rdparty/minitrace/minitrace.cpp:265-432 | so does every interleaving |
| `Minitrace.NothingLost` | src/BehaviorTree.CPP/3rdparty/minitrace/minitrace.cpp:265-432 | in every interleaving the accepted events are, in slot order, the flushed ones, then those being flushed, then the pending ones; nothing lost, doubled or torn |
| `Minitrace.ReadsAreSafe` | src/BehaviorTree.CPP/3rdparty/minitrace/minitrace.cpp:301-371 | all slots a flusher still reads are fully written, and whoever writes does so in the other buffer |
| `Minitrace.SpinEnds` | src/BehaviorTree.CPP/3rdparty/minitrace/minitrace.cpp:294-299 | whoever the spinning flusher waits for needs no lock and comes nearer to its end with each step |
| `Minitrace.SpinSeesZero` | src/BehaviorTree.CPP/3rdparty/minitrace/minitrace.cpp:294-299 | the spin ends exactly when no thread has a claim on a slot |
| `Minitrace.AcceptedExactly` | src/BehaviorTree.CPP/3rdparty/minitrace/minitrace.cpp:377-432 | an event is accepted in the step in which its writer has the mutex, tracing is on and fewer than n events are pending, and in no other; otherwise only the mutex is let go |
| `Minitrace.CheckingMeans` | src/BehaviorTree.CPP/3rdparty/minitrace/minitrace.cpp:377-388 | a thread comes to that step from a call for that event, when nobody has the mutex |
| `Minitrace.TracingSwitched` | src/BehaviorTree.CPP/3rdparty/minitrace/minitrace.cpp:242-258 | tracing is switched by mtr_start and mtr_stop, under the mutex, and by nothing else |
| `Minitrace.SoloWrite` | src/BehaviorTree.CPP/3rdparty/minitrace/minitrace.cpp:377-432 | a writer that nobody disturbs fills the next slot with its event and changes nothing else |
| `Minitrace.OnlySwapsAdd` | src/BehaviorTree.CPP/3rdparty/minitrace/minitrace.cpp:265-371 | only the swap of the buffers adds to what is written or on the way to the file, and it adds exactly the pending events |
| `Minitrace.SoloFlush` | src/BehaviorTree.CPP/3rdparty/minitrace/minitrace.cpp:265-371 | a flush that nobody disturbs writes exactly the pending events, in order |
| `ThreadedAction.StepKeeps` | src/BehaviorTree.CPP/src/action_node.cpp:202-256 | every step of the ticking thread and of the workers keeps the invariant |
| `ThreadedAction.HaltIsFinal` | src/BehaviorTree.CPP/src/action_node.cpp:246-256 | in every interleaving, when halt or the reset of a child returns the status is IDLE, and it stays so until executeTick is called |
| `ThreadedAction.WritesOwnSession` | src/BehaviorTree.CPP/src/action_node.cpp:212-233 | a worker changes the status or the exception only while its own session is current and the node running |
| `ThreadedAction.BareResetBreaks` | src/BehaviorTree.CPP/src/control_node.cpp:38-48 | without the halt that resetChildren makes first, a worker writes its result into the next session: a concrete run |
| `ThreadedAction.StaleExactly` | src/BehaviorTree.CPP/src/action_node.cpp:235-244 | a session can throw an exception of an older session if and only if exptr_ is set when the session starts |
| `ThreadedAction.LeakHappens` | src/BehaviorTree.CPP/src/action_node.cpp:246-256 | and halt leaves it set: a concrete run |
| `ThreadedAction.FailureSticks` | src/BehaviorTree.CPP/src/action_node.cpp:220-231 | a worker whose tick threw leaves the status RUNNING, which stays so, however often it is ticked, until the node is halted |
| `ThreadedAction.NoDeadlock` | src/BehaviorTree.CPP/src/action_node.cpp:202-256 | a waiting worker waits for a thread that can go on; a waiting ticking thread waits for at most four steps of a worker |
| `ThreadedResults.ReturnedIsWritten` | src/BehaviorTree.CPP/src/action_node.cpp:212-219 | in every run in which the tick of worker w returns a status other than IDLE, and no halt is requested when it looks, the status is that one when w has set it, whatever others do in between |
| `ThreadedResults.ResultStays` | src/BehaviorTree.CPP/src/action_node.cpp:202-256 | it stays until the ticking thread resets the node; executeTick starts no session before that, and reports it if there is no exception |
| `ThreadedResults.ResultReported` | src/BehaviorTree.CPP/src/action_node.cpp:235-244 | a call of executeTick then reports it |
| `ThreadedResults.ThrownOnce` | src/BehaviorTree.CPP/src/action_node.cpp:235-244 | if there is an exception the call throws it, once |
| `ThreadedResults.HaltSilences` | src/BehaviorTree.CPP/src/action_node.cpp:246-256 | a worker that has not looked when halt sets halt_requested_ never changes the status |
| `ThreadedResults.HaltForgotten` | src/BehaviorTree.CPP/src/action_node.cpp:207-211 | a halt of an earlier session is forgotten: unless the node is halted in this session its worker finds no request |
| `ThreadedResults.ThrowIsStored` | src/BehaviorTree.CPP/src/action_node.cpp:220-231 | a standard exception is stored as soon as the mutex is free, any other is lost; neither changes the status |
| `ThreadedResults.SessionsHaveWorkers` | src/BehaviorTree.CPP/src/action_node.cpp:212-233 | every session has exactly one worker |
| `ThreadedResults.StartsIfIdle` | src/BehaviorTree.CPP/src/action_node.cpp:202-211 | executeTick starts a session exactly when the node is idle |
| `ThreadedResults.ChildIsReset` | src/BehaviorTree.CPP/src/decorator_node.cpp:53-64 | resetChild halts a running node and resets any |
| `ThreadedResults.CompletedAreReset` | src/BehaviorTree.CPP/src/decorator_node.cpp:76-86 | a decorator resets its child exactly if that has succeeded or failed |
| `Blackboards.Blackboard.GetEntry` | src/BehaviorTree.CPP/src/blackboard.cpp:53-90 | the recursive lookup finds what the specification finds, and terminates by depth, then length of the key |
| `Blackboards.Blackboard.RootBlackboard` | src/BehaviorTree.CPP/src/blackboard.cpp:373-390 | the loop over the parents ends at the root |
| `Blackboards.Blackboard.AddSubtreeRemapping` | src/BehaviorTree.CPP/src/blackboard.cpp:98-102 | a key that is remapped already keeps its target |
| `Blackboards.Blackboard.CreateEntryImpl` | src/BehaviorTree.CPP/src/blackboard.cpp:282-334 | the new state and entry, or the error with nothing changed, as specified, boards above included |
| `Blackboards.Blackboard.CreateEntry` | src/BehaviorTree.CPP/src/blackboard.cpp:164-178 | the same for keys of the root; a second @ is refused |
| `Blackboards.Blackboard.SetValue` | src/BehaviorTree.CPP/include/behaviortree_cpp/blackboard.h:271-386 | set: creates or overwrites in place, counts the sequence number, refuses what cannot be converted with nothing changed |
| `Blackboards.Blackboard.UnsetValue` | src/BehaviorTree.CPP/include/behaviortree_cpp/blackboard.h:256-269 | removes the key from this board alone |
| `Blackboards.FindsAtSlot` | src/BehaviorTree.CPP/src/blackboard.cpp:53-85 | a lookup gives what the slot it ends at holds |
| `Blackboards.CreatesAtSlot` | src/BehaviorTree.CPP/src/blackboard.cpp:282-334 | creation works at one slot, which the boards on the way determine |
| `Blackboards.LookupsStay` | src/BehaviorTree.CPP/src/blackboard.cpp:53-334 | no lookup that succeeded, on any board, resolves to anything else after createEntry, whatever the remappings |
| `Blackboards.AgreeAtSlots` | src/BehaviorTree.CPP/src/blackboard.cpp:53-334 | after createEntry(k), looking k up gives that very entry if and only if the two ways of resolving k end at the same slot |
| `Blackboards.AgreeExactly` | src/BehaviorTree.CPP/src/blackboard.cpp:53-334 | that is so if and only if no board on the way of k hands its parent a key that begins with @, unless a board on that way remaps such a key |
| `Blackboards.CreateThenFind` | src/BehaviorTree.CPP/src/blackboard.cpp:53-334 | what createEntry created is found if no such key is handed on, whatever is remapped elsewhere |
| `Blackboards.RootKeyFound` | src/BehaviorTree.CPP/src/blackboard.cpp:164-178 | what is created under a key of the root is found under it, whatever the remappings are |
| `Blackboards.PlainTargets` | src/BehaviorTree.CPP/src/blackboard.cpp:98-102 | none is handed on if no remapping target begins with @ |
| `Blackboards.AtTargetLost` | src/BehaviorTree.CPP/src/blackboard.cpp:282-334 | the failing family: where such a key was handed on and not remapped, no lookup of any key on any board finds what was created |
| `Blackboards.AtTargetExample` | src/BehaviorTree.CPP/src/blackboard.cpp:282-334 | one such board: created under "@x" in the root, found nowhere |
| `Blackboards.AtSourceExample` | src/BehaviorTree.CPP/src/blackboard.cpp:282-334 | a board that remaps a key that begins with @ can bring creation and lookup together again |
| `Blackboards.SetThenGet` | src/BehaviorTree.CPP/include/behaviortree_cpp/blackboard.h:271-386 | after set, if no such key is handed on, the key looks up to an entry with the stored value, and every other entry is as before |
| `Blackboards.PrivateKeysStay` | src/BehaviorTree.CPP/src/blackboard.cpp:13-90 | a key that begins with an underscore and is not remapped is the board's own, for lookup and creation, whatever other boards store |
| `Blackboards.PrivateKeyCreated` | src/BehaviorTree.CPP/src/blackboard.cpp:316-334 | createEntry makes it there |
| `Blackboards.AutoRemapped` | src/BehaviorTree.CPP/src/blackboard.cpp:70-85 | with auto-remapping any other key the board has not is looked up and created on the parent under the same name |
| `Blackboards.NotRemapped` | src/BehaviorTree.CPP/src/blackboard.cpp:70-85 | without it the key is the board's own |
| `Blackboards.Remapped` | src/BehaviorTree.CPP/src/blackboard.cpp:74-79 | a remapped key, private or not, is the parent's under the other name, unless the board stores it |
| `Blackboards.AtKeysAreRoots` | src/BehaviorTree.CPP/src/blackboard.cpp:56-60 | a key after an at sign is the root's |
| `Blackboards.RedeclaredExactly` | src/BehaviorTree.CPP/src/blackboard.cpp:290-305 | declaring an entry again is refused exactly if both types are definite and differ |
| `Blackboards.SetExisting` | src/BehaviorTree.CPP/include/behaviortree_cpp/blackboard.h:300-386 | what set does to an entry: without a definite type it takes value and type, otherwise the converted value, or refuses |
| `Blackboards.SetMakes` | src/BehaviorTree.CPP/include/behaviortree_cpp/blackboard.h:275-300 | an entry that set makes has the value, a count of one, and its type, open for a string |
| `BlackboardBackups.CloneInto` | src/BehaviorTree.CPP/src/blackboard.cpp:180-271 | cloneInto: same keys and contents, overwriting in place what is there, new objects for the rest, stale keys gone, nothing else changed |
| `BlackboardBackups.ClonedContents` | src/BehaviorTree.CPP/src/blackboard.cpp:220-252 | each entry of the destination has value, type and converter of the source; one that was there counts one up, a new one starts at zero |
| `BlackboardBackups.ClonedInjective` | src/BehaviorTree.CPP/src/blackboard.cpp:180-271 | no entry object gets into two slots |
| `BlackboardBackups.BlackboardBackup` | src/BehaviorTree.CPP/src/bt_factory.cpp:762-772 | one new board for each of the tree, with the same contents, all else untouched |
| `BlackboardBackups.BlackboardRestore` | src/BehaviorTree.CPP/src/bt_factory.cpp:753-760 | clones each backup into its board, in turn |
| `BlackboardBackups.RunSpares` | src/BehaviorTree.CPP/include/behaviortree_cpp/blackboard.h:256-386 | no run of set, createEntry and unset on the live boards touches any other board, the backups among them |
| `BlackboardBackups.RestoreUndoes` | src/BehaviorTree.CPP/src/bt_factory.cpp:753-772 | after backup, any such run, and restore: each board has exactly the keys, values, declared types and converters it had; entries still there are the same objects; none is in two slots |
| `BlackboardLocks.WaitsInOrder` | src/BehaviorTree.CPP/src/blackboard.cpp:180-271 | a thread waits only for a lock that comes after all it holds: entries, then boards from deep to shallow |
| `BlackboardLocks.Discipline` | src/BehaviorTree.CPP/src/blackboard.cpp:104-138 | in every interleaving whoever waits for an entry_mutex holds no lock, and whoever waits for a storage_mutex_ holds only those of deeper boards |
| `BlackboardLocks.NoCycle` | src/BehaviorTree.CPP/src/blackboard.cpp:180-271 | threads never wait for each other in a circle |
| `BlackboardLocks.NoDeadlock` | src/BehaviorTree.CPP/src/blackboard.cpp:180-334 | as long as a thread is in a call, some such thread can step, and it is none that takes a lock as a reader while another waits for the same lock as a writer (KeptOut) |
| `BlackboardRaces.NoRaces` | src/BehaviorTree.CPP/src/blackboard.cpp:53-334 | in every interleaving, while one thread writes the map of a board or the value of an entry no other reads or writes it |
| `BlackboardRaces.PeekingRaces` | src/BehaviorTree.CPP/src/blackboard.cpp:104-138 | but debugMessage and createEntry look at the types of entries without their locks: a run in which set may change such a type at that moment |
| `BlackboardRaces.EntryIsReached` | src/BehaviorTree.CPP/include/behaviortree_cpp/blackboard.h:271-386 | get and set come to the entry they have found with its lock |
| `BlackboardRaces.EntryIsCreated` | src/BehaviorTree.CPP/src/blackboard.cpp:282-334 | set of a missing key creates it with the maps on the way locked, and writes the value after letting go of them |
| `BlackboardRaces.MapIsReached` | src/BehaviorTree.CPP/include/behaviortree_cpp/blackboard.h:256-269 | unset comes to the map of its own board, locked for writing |
| `BlackboardRaces.CloneCopies` | src/BehaviorTree.CPP/src/blackboard.cpp:180-271 | cloneInto looks through both maps together, copies values with their entries locked, and comes to the map of the destination |
| `PackageOrder.AtMostIsDictionary` | install/_local_setup_util_sh.py:139-140 | names are compared character by character; a name comes after its beginnings |
| `PackageOrder.Packages.RemoveUnknown` | install/_local_setup_util_sh.py:93-96 | afterwards every dependency is a package |
| `PackageOrder.Packages.ReduceCycleSet` | install/_local_setup_util_sh.py:149-173 | terminates with the greatest set each of whose members is a dependency of a member |
| `PackageOrder.OrderPackages` | install/_local_setup_util_sh.py:121-146 | the alphabetically least order with each package after its dependencies; raises exactly if there is a cycle, and then every cycle is among the names left, and no further name could have been ordered |
| `PackageOrder.GreedyIsLeast` | install/_local_setup_util_sh.py:131-146 | choosing the first ready name each time gives the lexicographically least order |
| `PackageOrder.CycleSpared` | install/_local_setup_util_sh.py:131-146 | no package on a cycle is ever ordered |
| `Subtrees.Tree.GetUID` | src/BehaviorTree.CPP/src/bt_factory.cpp:707-711 | sixteen bits, wrapping to zero |
| `Subtrees.Tree.CreateSubtree` | src/BehaviorTree.CPP/src/xml_parsing.cpp:1043-1214 | the recursion, with its set of ancestors, builds what the specification says, also up to an exception, and leaves the ancestors as they were |
| `Subtrees.Tree.StepHere` | src/BehaviorTree.CPP/src/xml_parsing.cpp:1058-1193 | one element: depth limit, node, children or subtree, duplicate path |
| `Subtrees.InstantiateBuildsWell` | src/BehaviorTree.CPP/src/xml_parsing.cpp:1043-1214 | instance paths are pairwise distinct and UIDs consecutive in creation order, up to 65535 nodes |
| `Subtrees.InstantiateUnfolds` | src/BehaviorTree.CPP/src/xml_parsing.cpp:1043-1214 | without an error the nodes and subtrees are those of the unfolded main tree, in pre-order |
| `Subtrees.InstantiatePlaces` | src/BehaviorTree.CPP/src/xml_parsing.cpp:1043-1214 | and each subtree holds exactly the nodes of the tree it was made from |
| `Subtrees.CycleExactly` | src/BehaviorTree.CPP/src/xml_parsing.cpp:1048-1052 | other errors aside, the cycle error is raised exactly when a cycle of references is reachable from the main tree |
| `Subtrees.CycleOfInput` | src/BehaviorTree.CPP/src/xml_parsing.cpp:1043-1214 | of the input alone: where references resolve and have no names, nesting is within the limit and the unfolding has fewer than 65536 nodes, instantiation fails exactly if a cycle is reachable, with the cycle error |
| `Subtrees.NoFalseAlarm` | src/BehaviorTree.CPP/src/xml_parsing.cpp:1048-1052 | with other errors: a reachable cycle excludes success, and without one the cycle error is not raised |
| `Subtrees.NodePathsDistinct` | src/BehaviorTree.CPP/src/xml_parsing.cpp:855-862 | if no element has a name of its own, the full paths of all nodes are pairwise distinct, up to 65535 nodes |
| `Subtrees.AutoNamesNeverClash` | src/BehaviorTree.CPP/src/xml_parsing.cpp:1160-1186 | generated names never give a duplicate path before 65536 nodes |
| `Subtrees.NamesClashExactly` | src/BehaviorTree.CPP/src/xml_parsing.cpp:1160-1186 | with two references to one tree in a subtree and n leaves between them, they do if and only if n + 2 is a multiple of 65536 |
| `SubtreeListing.SucceedsExactly` | src/BehaviorTree.CPP/src/xml_parsing.cpp:1043-1214 | instantiation succeeds if and only if the main tree can be unfolded, no element lies deeper than the 256th level below its root, and the names of the subtrees are pairwise distinct and not empty |
| `SubtreeListing.InstantiateLists` | src/BehaviorTree.CPP/src/xml_parsing.cpp:1043-1214 | it has then built exactly the nodes and subtrees the unfolding lists, in pre-order, with these UIDs, paths and names |
| `SubtreeListing.ErrorsExplained` | src/BehaviorTree.CPP/src/xml_parsing.cpp:1061-1067 | a missing tree is reported only if one is referred to from the main tree; too deep nesting only if such a tree is nested too deeply |
| `SubtreeListing.DigitsAreDecimal` | src/BehaviorTree.CPP/src/xml_parsing.cpp:1167-1167 | UIDs are written in base ten |
| `Coroutines.McoResume` | src/BehaviorTree.CPP/3rdparty/minicoro/minicoro.h:1731-1743 | resume up to the switch; the assertions on prev_co and RUNNING hold |
| `Coroutines.McoYield` | src/BehaviorTree.CPP/3rdparty/minicoro/minicoro.h:1745-1770 | yield up to the switch; the commented assertions of the jump out hold |
| `Coroutines.McoMainEnds` | src/BehaviorTree.CPP/3rdparty/minicoro/minicoro.h:532-536 | the end of a coroutine |
| `Coroutines.McoDestroy` | src/BehaviorTree.CPP/3rdparty/minicoro/minicoro.h:1713-1729 | destroys only suspended or dead coroutines |
| `Coroutines.StepKeeps` | src/BehaviorTree.CPP/3rdparty/minicoro/minicoro.h:478-536 | every call keeps the chain of prev_co: without repetition, the first RUNNING, the rest NORMAL, all others SUSPENDED or DEAD without prev_co |
| `Coroutines.ChainAlways` | src/BehaviorTree.CPP/3rdparty/minicoro/minicoro.h:478-536 | and so in every run |
| `Coroutines.ChainUnique` | src/BehaviorTree.CPP/3rdparty/minicoro/minicoro.h:478-536 | the chain is determined by the state |
| `Coroutines.LastInFirstOut` | src/BehaviorTree.CPP/3rdparty/minicoro/minicoro.h:1731-1777 | whatever a resumed coroutine resumes in turn, when the depth is back it is by its own yield or return, and the chain is the one that resumed it |
| `CoroutineScheduler.StepServes` | src/BehaviorTree.CPP/3rdparty/minicoro/minicoro.h:1713-1777 | every call does to states and links what it should do to a stack of coroutines and two sets, and answers accordingly |
| `CoroutineScheduler.RunServes` | src/BehaviorTree.CPP/3rdparty/minicoro/minicoro.h:1713-1777 | so does every run |
| `CoroutineLayout.AlignedNext` | src/BehaviorTree.CPP/3rdparty/minicoro/minicoro.h:471-473 | alignment gives the next multiple of 16 |
| `CoroutineLayout.MaskIsRemainder` | src/BehaviorTree.CPP/3rdparty/minicoro/minicoro.h:471-473 | the mask takes off the remainder, on 64-bit words |
| `CoroutineLayout.MaskedBits` | src/BehaviorTree.CPP/3rdparty/minicoro/minicoro.h:471-473 | bit by bit, the aligned address is the sum of the address and 15 with the last four bits cleared |
| `CoroutineLayout.StackIsLargeEnough` | src/BehaviorTree.CPP/3rdparty/minicoro/minicoro.h:1593-1604 | the stack has 57344 bytes if nothing is asked for, else the least multiple of 16 that is at least what was asked for and at least 32768 |
| `CoroutineLayout.PartsFit` | src/BehaviorTree.CPP/3rdparty/minicoro/minicoro.h:1239-1291 | for any block address and any header, context, storage and stack sizes, context, storage and stack are aligned, disjoint and inside the requested size |
| `CoroutineLayout.SpareBytesNeeded` | src/BehaviorTree.CPP/3rdparty/minicoro/minicoro.h:1285-1291 | and there is a block that needs all but one of the spare bytes |
| `TreeHalt.TreeNode.HaltHere` | src/BehaviorTree.CPP/src/action_node.cpp:192-200 | halt by the kind of node: onHalted exactly if a stateful action is running |
| `TreeHalt.TreeNode.ResetChildrenHere` | src/BehaviorTree.CPP/src/control_node.cpp:38-48 | halts running children and resets all |
| `TreeHalt.TreeNode.ResetChildHere` | src/BehaviorTree.CPP/src/decorator_node.cpp:53-64 | the same for one child |
| `TreeHalt.TreeNode.ApplyHaltVisitor` | src/BehaviorTree.CPP/src/behavior_tree.cpp:40-63 | visits each node, parents first |
| `TreeHalt.HaltWholeTree` | src/BehaviorTree.CPP/src/bt_factory.cpp:629-644 | first the root, then the visitor, then the status of the root |
| `TreeHalt.HaltTreeHalts` | src/BehaviorTree.CPP/src/bt_factory.cpp:629-644 | from any mix of states every node ends IDLE, and onHalted is called exactly once on each stateful action that was RUNNING and on no other node |
| `TreeHalt.FirstPassExactly` | src/BehaviorTree.CPP/src/control_node.cpp:32-48 | halting the root alone leaves all idle if and only if each node that was not idle had a running parent or the root for a parent |
| `TreeHalt.SecondPassExactly` | src/BehaviorTree.CPP/src/bt_factory.cpp:639-641 | the second pass changes no status if and only if that holds |
| `TreeHalt.ScriptsRun` | src/BehaviorTree.CPP/src/tree_node.cpp:159-169 | but it does run every halting script: those of the root and of running nodes run twice, all others once |
| `Multipart.NetworkOrderInverse` | src/BehaviorTree.CPP/3rdparty/cppzmq/zmq_addon.hpp:135-160 | writing and reading four bytes in network order undo each other |
| `Multipart.EncodedSize` | src/BehaviorTree.CPP/3rdparty/cppzmq/zmq_addon.hpp:280-292 | the first pass: the exact size, or the exception for a part of more than 2^32-1 bytes |
| `Multipart.Encode` | src/BehaviorTree.CPP/3rdparty/cppzmq/zmq_addon.hpp:278-316 | the buffer of that size is filled exactly, with the encoding |
| `Multipart.ReadPart` | src/BehaviorTree.CPP/3rdparty/cppzmq/zmq_addon.hpp:338-356 | reads one part, never past the end |
| `Multipart.Decode` | src/BehaviorTree.CPP/3rdparty/cppzmq/zmq_addon.hpp:333-360 | the loop returns all parts or throws, as specified |
| `Multipart.DecodesExactly` | src/BehaviorTree.CPP/3rdparty/cppzmq/zmq_addon.hpp:333-360 | decode returns these parts if and only if the bytes are blocks of these parts and nothing else |
| `Multipart.RoundTrip` | src/BehaviorTree.CPP/3rdparty/cppzmq/zmq_addon.hpp:278-360 | decoding an encoding gives the same parts |
| `Multipart.ReencodingIsShorter` | src/BehaviorTree.CPP/3rdparty/cppzmq/zmq_addon.hpp:333-360 | encoding again what was decoded is possible and never longer |

## Left out

- Evaluating scripts: the front end ends at the expression trees. A real literal keeps its text:
  which texts convert to a double is a parameter, and the number they convert to is not modelled.
- XmlParser.Document.ParseDeep: does not parse comments, CDATA sections, declarations and DTD nodes,
  because the library's own printer writes none for documents of elements; it reports them as not modelled.
- XmlParser.Document.Parse: leaves out the same nodes, and a byte order mark at the start.
- XmlPrinter.Printer.PrintAll: does not write a byte order mark, because parsed text has none here.
- Loading XML files, line numbers and the wording of errors.
- XmlRoundTrip.ParsePrint: does not cover texts that are white space only, two texts in a row, or texts
  with NUL or CR, because the parser drops, joins or changes these.
- Attribute values and texts are decoded where they are parsed, not on first access; the result is the same.
- Memory pools, deep cloning and deletion of XML nodes; a child list is only linked and unlinked.
- minitrace's initialisation, shutdown, signal handler and the JSON text of an event; MTR_ENABLED is assumed.
- ThreadedAction: the wake-up signal is a step without effect, and data races on exptr_ are outside the
  model, since every access takes the mutex.
- StatefulActionNode::tick and CoroActionNode: each is a few branches around callbacks; halting the one
  is in TreeHalt, the coroutines of the other are in Coroutines.
- Blackboards.Blackboard.SetValue: does not model the conversions between stored values, because they are
  the business of safe_any.hpp; any conversion function can be given. Time stamps are not kept.
- A parent blackboard that is destroyed before its child; JSON export and import; reading through
  getAnyLocked is modelled only as far as its locks.
- XmlLinks: the caller must not insert a node below itself; the methods do not check it (`MoveKeepsForest`).
- BlackboardLocks.NoDeadlock: does not cover a caller that holds an AnyPtrLocked object and asks for a
  second one, or calls set, createEntry or unset, because the order in which it then locks is its own; while
  it holds one it may call getEntry and debugMessage.
- Whether std::lock can back off for ever: some thread can always step, even if readers
  wait for waiting writers (`NoDeadlock`), but fairness is not modelled.
- cloneInto from a board into itself: std::lock would be given the same mutex twice.
- The text of the exception order_packages raises, and reading and writing the files around it.
- Subtrees.Tree.StepHere: leaves out the same as CreateSubtree, because it is the body of that recursion.
- Subtrees.Tree.CreateSubtree: does not model ports, blackboards and other validation of an element,
  because they do not change which nodes are created; elements replaced by substitution rules and null
  root elements are left out as well.
- Subtrees.NamesClashExactly: is exact for one family of trees; of trees in general
  `AutoNamesNeverClash` says only that a clash takes at least 65536 nodes.
- TreeHalt: TryCatchNode with catch_on_halt, which ticks a child while it is halted; callbacks that change
  the tree; control nodes with a null child, where the visitor throws.
- minicoro's assembly, ucontext and fiber switches, its sanitizer hooks, and the storage stack of push and pop.
- Multipart.Encode: does not model an overflow of the summed sizes in size_t, because parts of that many
  bytes do not fit into memory.
- The leaf nodes, the concrete control nodes, the timer queue, ROS packages, sockets, exporters, examples
  and fuzzers.
