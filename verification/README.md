# A verified model of silex's text tools

silex is a shell with built-in versions of the common Unix tools.  This project models the parts of it whose
behaviour finite tests cannot settle, and proves what they are for:

| file | what it models |
|---|---|
| `Common.dfy` | options, powers of two, C strings |
| `Arith.dfy` | the arithmetic evaluator of `$((...))`: a recursive-descent parser that evaluates as it reads |
| `ArithTrees.dfy` | expressions as trees, their printed form and their value; the parser inverts the printer |
| `ArithLaws.dfy` | what the operators and literals are worth, and what written calculations give |
| `Fields.dfy` | field splitting |
| `Markers.dfy` | the in-band markers of words, and the encoding of data that keeps them apart |
| `Encoding.dfy` | splitting encoded words, and `"$@"` |
| `Guards.dfy` | the guards around the quoted regions of a word, its placeholders, and the words it becomes |
| `Placeholders.dfy` | which placeholders change the words |
| `Meaning.dfy` | exactly which words become what they say |
| `Losses.dfy` | kinds of words that do not, and exactly when |
| `Parameters.dfy` | what words become, said without the means of the shell: `$@` under every IFS, and words in which nothing separates |
| `Expander.dfy` | the buffer and flags of the expander, and the whole way of a word, in place |
| `Scanners.dfy` | the scanners that find where `"..."`, `${...}` and `$(...)` end |
| `CommandBodies.dfy` | where a command substitution ends |
| `Patterns.dfy` | pattern trimming and replacement with their literal fast paths, and quoting in patterns |
| `Globs.dfy` | what a pattern matches, item by item |
| `SedRange.dfy` | the addresses of sed commands and their range state |
| `SedSubst.dfy` | the substitution loop of sed |
| `SedReplaces.dfy` | what `s` makes of a text, for simple expressions |
| `SedMachine.dfy` | sed scripts with nested blocks, flat command lists with jumps, and why they mean the same |
| `SedCompile.dfy` | how the flat list is made: matching braces, resolving labels |
| `SedRun.dfy` | the machine that runs the list over a stream of records, in place |
| `SedPrograms.dfy` | what whole sed programs do to whole streams |
| `SedScripts.dfy` | well-known one-line scripts on whole streams |
| `SedLoops.dfy` | scripts that read within a cycle, begin it again, or loop |
| `HashMap.dfy` | the open-addressing hash map with tombstones |
| `FsCache.dfy` | the cache of `stat` results built on it |
| `Sha256.dfy` | streaming SHA-256 against FIPS 180-4 |
| `Sha256Laws.dfy` | what the functions of SHA-256 do to bits, numbers and bytes |
| `Sha256Constants.dfy` | its constants as roots of primes |
| `Sha256Trace.dfy` | the digest of `abc`, round by round |
| `SortKeys.dfy` | how sort compares keys |
| `SortOrder.dfy` | the order of lines, and the removal of duplicates |
| `SortLaws.dfy` | what the flags of sort mean |
| `RealPath.dfy` | relative paths |

`dafny verify dfyconfig.toml` checks all of it.

Strings are sequences of characters; a C string is one without NUL, and reading past its end gives NUL.  Code that
updates state in place is a class or a method with loops; each is proved equal to a function, and the properties are
lemmas about that function.  Where a theorem uses the same function on both sides, as an evaluator and its parser do,
that function is held against laws that do not mention how it is written.  The regular expressions of sed, the clock and
the file system of the cache, the field arithmetic of `sort -k` and whether an allocation succeeds are parameters.

What the proofs found to be false of the code is stated with an input that shows it and with the exact condition under
which it is true:

- SHA-256 pads files of 2^29 bytes or more with a wrong length (`Sha256s.FilesFrom2To29AreMispadded`).
- A sed script with more than 64 nested blocks runs blocks that it should skip (`SedMachines.NestingLimit`,
  `SedCompile.DepthBound`).
- A word that is split need not become what it says.  `WordMeaning.WordsMeantExactly` says for every word exactly when it
  does.  Three kinds of words do not:
  - an empty last parameter of `"$@"` is lost in front of white space (`WordLosses.EmptyParameterLost`,
    `WordLosses.LastParameter`);
  - without parameters, a second `"$@"` can add an empty word (`WordLosses.ParamsTwice`);
  - typed bytes 0x02, 0x03 and 0x05 are lost in quotes, and 0x04 spoils the byte behind it (`WordLosses.TypedText`); 0x01
    is lost in words with boundaries (`WordMeaning.LostIsMissed`).  Data of expansions is safe.
- `$@` outside quotes does not always split each parameter by itself, although its parameters are joined for that: white
  space between them merges with a separator that the next one begins with (`WordParameters.MarkBehindBlank`,
  `WordParameters.ParamsSplit`).
- The splitting loop by itself loses a field when IFS holds both 0x01 and white space and the text has an unquoted 0x01
  that counts as a boundary (`WordFields.AmbiguousFails`, `WordFields.SplitIsFieldsExactly`).  The expander makes no
  such byte: the boundaries of `"$@"` are quoted, and those of `$@` appear only with an empty IFS
  (`WordFields.QuotedBoundariesSplit`, `WordMeaning.WordsAreFieldsOfData`).
- `$$` directly before `{` or `(` is read in two ways, which matters when a quote is inside
  (`Scanners.PidBraceDisagrees`, `Scanners.InStepExactly`, `Scanners.SimpleExactly`).
- A relative path that does not fit its buffer loses the target silently (`RealPaths.AllowedPathsMiss`,
  `RealPaths.RelativeLeadsBack`).
- `hm_put` drops a new entry silently when an enlargement fails and every slot is live (`HashMaps.DeniedRun`,
  `HashMaps.HashMap.Put`).

Where the code differs from its comments or from POSIX.1-2017, the model follows the code: the comment on
`scan_braced_end` gives `outer_dq` a meaning, but the function ignores it; in arithmetic, `&&`, `||` and `?:` evaluate
all their operands, and the six comparisons share one precedence.

## Model

| member | source | states |
|---|---|---|
| `ArithTrees.ParserInvertsPrinting` | core/src/shell/expand.c:1468-1897 | For every well-formed expression tree, standing anywhere in any text, the parser returns the value and the variable assignments of the tree and stops behind its text and the blanks that follow; whatever comes next may be anything that does not continue the expression. Division by zero and unset variables under `set -u` abort with the same error. |
| `ArithTrees.ParseTree` | core/src/shell/expand.c:1685-1897 | The same at every nonterminal that derives the tree: precedence (all six comparisons share one level), left associativity of the binary operators, right associativity of `?:`. |
| `ArithTrees.PrintedTreesEvaluate` | core/src/shell/expand.c:1468-1897 | Every tree with legal names and literals, printed with the parentheses the grammar needs, evaluates to its own value and is consumed to its last byte. What the operators and literals of a tree are worth is held against laws of their own in `ArithLaws`. |
| `ArithTrees.ParenthesesFit` | core/src/shell/expand.c:1685-1897 | The parentheses that the printer adds are always enough for the grammar of the code. |
| `ArithTrees.ParenthesesKeepValue` | core/src/shell/expand.c:1468-1500 | Parentheses change neither value nor assignments nor errors. |
| `ArithTrees.OpFollows` | core/src/shell/expand.c:1685-1872 | Behind an operand, an operator is recognised by its own nonterminal and by no tighter one (`<` is not read in `<<`, `&` not in `&&`, `+` not in `+=`). |
| `ArithTrees.LiteralReads` | core/src/shell/expand.c:1674-1680 | A decimal, octal or hexadecimal literal is read whole. |
| `ArithTrees.NameReads` | core/src/shell/expand.c:1395-1466 | A variable name is read whole. |
| `Arith.ArithParser.SkipBlank` | core/src/shell/expand.c:1372-1381 | The cursor moves over space, tab, newline and carriage return, and no further. |
| `Arith.ArithParser.ReadName` | core/src/shell/expand.c:1395-1466 | The name between the old cursor and the new one. |
| `Arith.ArithParser.LeftAssociative` | core/src/shell/expand.c:1685-1872 | The loops of `arith_mul` to `arith_logical_or`, and of `,` in `arith_expr`, return what the grammar as a function returns, with the same cursor and variables; the operators that they apply obey the laws of `ArithLaws`. |
| `Arith.ArithParser.TernaryExpr` | core/src/shell/expand.c:1874-1885 | `?:` as it is: both branches are evaluated and then one is chosen; a missing `:` is not an error. |
| `Arith.ArithParser.Nonterminal` | core/src/shell/expand.c:1685-1897 | Each nonterminal, proved to terminate by the remaining input. |
| `Arith.ArithParser.PrimaryExpr` | core/src/shell/expand.c:1468-1683 | Parentheses (a missing `)` is let pass), prefix operators, operands and literals; anything else is 0 without consuming input. |
| `Arith.ArithParser.VariableOperand` | core/src/shell/expand.c:1560-1672 | A variable: `set -u`, the eleven assignment operators, postfix `++` and `--`, or its value. |
| `Arith.ArithParser.Update` | core/src/shell/expand.c:1482-1510 | `++` and `--`: old or new value, and the variable stored. |
| `ArithLaws.Addition` | core/src/shell/expand.c:1725-1726 | `+` is pinned by 0, the successor and commutativity, and fails exactly when the sum has no room in a `long`. |
| `ArithLaws.Subtraction` | core/src/shell/expand.c:1727 | `-` undoes `+` and `+` undoes `-`; the sign `-` is subtraction from 0. |
| `ArithLaws.Multiplication` | core/src/shell/expand.c:1694 | `*` has 0 and 1 where they belong, commutes and distributes over `+`. |
| `ArithLaws.Division` | core/src/shell/expand.c:1695-1707 | Quotient times divisor plus remainder is the dividend; the remainder is smaller than the divisor and has the sign of the dividend. Division by zero and of the least `long` by -1 fail, and nothing else does. |
| `ArithLaws.Comparisons` | core/src/shell/expand.c:1763-1790 | The six comparisons answer 0 or 1 and are one total order, that of the sign of the difference. |
| `ArithLaws.LessIsTransitive` | core/src/shell/expand.c:1763-1790 | That order is transitive. |
| `ArithLaws.TruthTables` | core/src/shell/expand.c:1840-1872 | `&&`, `&#124;&#124;` and `!` on zero and nonzero operands, and `,`. |
| `ArithLaws.BitOperators` | core/src/shell/expand.c:1792-1838 | `&`, `&#124;`, `^` and `~` act on each bit in two's complement, the sign included, and stay in range. |
| `ArithLaws.Shifts` | core/src/shell/expand.c:1732-1761 | Bit `i` of a shifted number is the bit that was moved there; `>>` repeats the sign; a count outside of the word gives 0. |
| `ArithLaws.ShiftsByOne` | core/src/shell/expand.c:1732-1761 | One more `<<` doubles while there is room, and one more `>>` halves, rounding down. |
| `ArithLaws.StoreThenRead` | core/src/shell/expand.c:1561-1610 | What is stored is read back, other variables stay, and an unset one is 0 or an error under `set -u`. |
| `ArithLaws.AssignIsOperator` | core/src/shell/expand.c:1629-1671 | `x op= e` gives what `x op e` gives, and stores it, for the operator whose text is in front of the `=`; the two shifts where C defines them. |
| `ArithLaws.SetStores` | core/src/shell/expand.c:1629-1671 | `x = e` gives and stores the value of `e`. |
| `ArithLaws.BumpIsAssign` | core/src/shell/expand.c:1482-1510 | `++x` is `x += 1` and `--x` is `x -= 1`; behind the variable they store the same and give the old value. |
| `ArithLaws.NumeralsRead` | core/src/shell/expand.c:1674-1680 | A number printed by repeated division in base 10, in base 8 behind `0`, or in base 16 behind `0x` or `0X`, is a literal and is read as that number, or as the largest `long` if it has no room. |
| `ArithLaws.OperatorTable` | core/src/shell/expand.c:1685-1872 | Each operator has the text and the precedence of its row in a table of operator texts. |
| `ArithLaws.TextIsOperator` | core/src/shell/expand.c:1685-1872 | And every text of the table, but the `?` of the conditional, is that of an operator of its row. |
| `ArithLaws.Sums` | core/src/shell/expand.c:1685-1730 | The text of two printed numbers with `+`, `-`, `*`, `/` or `%` between them, laid out anyhow, is evaluated to their sum, difference, product, quotient or remainder; overflow and division by zero stop it. |
| `ArithLaws.WrittenComparisons` | core/src/shell/expand.c:1763-1790 | The same for the six comparisons. |
| `ArithLaws.WrittenTruth` | core/src/shell/expand.c:1840-1872 | The same for `&&`, `&#124;&#124;` and `,`. |
| `ArithLaws.WrittenBits` | core/src/shell/expand.c:1792-1838 | The same for `&`, `&#124;` and `^`, bit by bit. |
| `ArithLaws.WrittenShifts` | core/src/shell/expand.c:1732-1761 | The same for `<<` and `>>`, as products with and quotients by powers of two. |
| `ArithLaws.WrittenSigns` | core/src/shell/expand.c:1513-1534 | The prefix operators in front of a printed number. |
| `ArithLaws.WrittenChoice` | core/src/shell/expand.c:1874-1885 | `a ? b : c` of printed numbers is `c` if `a` is 0 and else `b`. |
| `ArithLaws.Precedence` | core/src/shell/expand.c:1685-1872 | Of any two operators between three printed numbers the one in the later row of the table is applied first; operators of one row are applied from left to right. |
| `HashMaps.SlotIndex` | core/src/cache/hashmap.c:43-52 | The top bits of the 64-bit product: always a slot of the table. |
| `HashMaps.FindIsExact` | core/src/cache/hashmap.c:58-87 | Probing finds a key exactly if the map holds it, over tombstones and in a table without an empty slot, and else gives the slot where it may go. |
| `HashMaps.FindFromIsExact` | core/src/cache/hashmap.c:63-84 | The probing loop from any step on, with the first tombstone it remembers. |
| `HashMaps.WriteKeepsValid` | core/src/cache/hashmap.c:160-169 | A write over the slot of its key, or over a free slot that the probing reached, keeps keys unique and every chain free of empty slots up to its key, and changes the map at that key only. |
| `HashMaps.EraseKeepsValid` | core/src/cache/hashmap.c:172-184 | A tombstone keeps every other chain unbroken and takes exactly its key out of the map. |
| `HashMaps.LiveIsSize` | core/src/cache/hashmap.c:147-184 | The number of live slots is the size of the map. |
| `HashMaps.FullWhenAllLive` | core/src/cache/hashmap.c:58-87 | There is no slot to give exactly if all are live. |
| `HashMaps.HashMap.constructor` | core/src/cache/hashmap.c:116-127 | An empty map; the capacity is a power of two, at least 8 and below twice what was asked for; without the allocation, no table. |
| `HashMaps.HashMap.TableSize` | core/src/cache/hashmap.c:116-121 | The loop of `hm_init` finds the least power of two that is enough. |
| `HashMaps.HashMap.FindSlot` | core/src/cache/hashmap.c:58-87 | The loop computes `Find`. |
| `HashMaps.HashMap.Resize` | core/src/cache/hashmap.c:89-114 | The map and its count are unchanged; tombstones are gone; nothing happens if the allocation fails. |
| `HashMaps.HashMap.MoveSlot` | core/src/cache/hashmap.c:98-108 | One turn of that loop: what the new table maps grows by the entry of one slot. |
| `HashMaps.HashMap.Get` | core/src/cache/hashmap.c:137-145 | The value of the key, or NULL if it is absent. |
| `HashMaps.HashMap.Put` | core/src/cache/hashmap.c:147-170 | The map updated at the key, unless the first allocation or a needed enlargement failed: then a new key is dropped exactly if every slot is taken, which is the only case of a lost entry. When the table is enlarged, exactly. |
| `HashMaps.HashMap.Store` | core/src/cache/hashmap.c:160-169 | Behind the enlargement: the entry goes into the slot that the search gave, if there is one. |
| `HashMaps.HashMap.Delete` | core/src/cache/hashmap.c:172-184 | The map without the key. |
| `HashMaps.HashMap.CountIsSize` | core/src/cache/hashmap.c:147-184 | `count` is the number of entries. |
| `HashMaps.RunAll` | core/src/cache/hashmap.c:116-184 | Any sequence of operations on a fresh object, with any allocations failing, answers as a map with a limit does, which loses a new key in that one case only; if none fails, as a mathematical map. |
| `HashMaps.GrantedRun` | core/src/cache/hashmap.c:89-170 | Without a failing allocation the limit never shows. |
| `HashMaps.DeniedRun` | core/src/cache/hashmap.c:147-170 | If all enlargements fail, of any number of different keys exactly as many are kept as the table has slots: a run that loses entries, for every capacity. |
| `FsCaches.KindsNeverAlias` | core/src/cache/fscache.c:88-97 | A `stat` key and an `lstat` key are different, whatever the paths. |
| `FsCaches.HashPath` | core/src/cache/fscache.c:88-97 | The loop computes the 64-bit FNV-1a hash, its top bit cleared for the flag of `lstat`. |
| `FsCaches.HitsAreTrue` | core/src/cache/fscache.c:142-367 | Over every run with a clock that does not go back and truthful inserts, a hit is the result of an earlier real call of the same path and kind (or of an insert, which counts as `stat`), less than `ttl` seconds old, with no invalidation of the path since, nor of a name in it as a directory, whatever paths collide in the hash. |
| `FsCaches.RunsAreJustified` | core/src/cache/fscache.c:142-367 | Every entry of the cache after any such run has a witness in the run. |
| `FsCaches.StepKeepsJustified` | core/src/cache/fscache.c:142-367 | What every operation keeps. |
| `FsCaches.StoredIsFound` | core/src/cache/fscache.c:142-194 | What was stored is found until it is too old, and nothing under another key changes. |
| `FsCaches.ForgetIs` | core/src/cache/fscache.c:264-282 | After the removal of a path no entry of it is left, under either kind, and all other entries stay. |
| `FsCaches.ParentHolds` | core/src/cache/fscache.c:343-367 | The directory that is dropped with a path: `d` for `d/name` if `d` is shorter than `PATH_MAX`, `/` for `/name`, and `.` for a name without a slash; nothing else. |
| `FsCaches.DropIsExact` | core/src/cache/fscache.c:343-367 | An invalidation takes the entries of the path and of that directory, of both kinds, and leaves all others as they are. |
| `FsCaches.FsCache.StorePath` | core/src/cache/fscache.c:142-169 | On the heap and the table of the hash map: the entry under the key is replaced, collisions included, unless the cache is off or a new key would exceed the limit. |
| `FsCaches.FsCache.LookUp` | core/src/cache/fscache.c:179-194 | The stored result if the path is the same and the entry is younger than `ttl`. |
| `FsCaches.FsCache.StatPath` | core/src/cache/fscache.c:200-253 | A hit answers from the cache; a miss asks the system and stores what it says, failures not. |
| `FsCaches.FsCache.InsertPath` | core/src/cache/fscache.c:308-328 | The result is stored as one of `stat`; what is known of the path under `lstat` stays. |
| `FsCaches.FsCache.ForgetEntry` | core/src/cache/fscache.c:264-282 | The entry is freed and its key deleted only if it is of this path. |
| `FsCaches.FsCache.InvalidatePath` | core/src/cache/fscache.c:343-367 | On heap and table: the path and the directory that holds it are forgotten, under both kinds, and no other entry is (`DropIsExact`). |
| `FsCaches.FsCache.InvalidateAll` | core/src/cache/fscache.c:288-302 | All entries are freed, and the table is empty again, without tombstones. |
| `Sha256s.HashPieces` | core/src/core/sha256sum.c:84-150 | For every message and every way of cutting it into updates, the digest is the one-shot hash of section 6.2.2 of FIPS 180-4 if the message is shorter than 2^29 bytes or the pieces carry its high length bits; in every case it is the fold over the message with the padding that the code computes. The pieces of that hash are held against laws of their own below, and `abc` has its published digest. |
| `Sha256s.FilesFrom2To29AreMispadded` | core/src/core/sha256sum.c:137-150 | For the pieces of at most 64 KiB that `hash_file` reads, the padding is that of section 5.1.1 of FIPS 180-4 exactly if the file is shorter than 2^29 bytes. |
| `Sha256s.PaddedIsPad` | core/src/core/sha256sum.c:112-131 | The padded message is the standard one exactly if the high count is the number of whole 2^29 bytes. |
| `Sha256s.LengthFieldExact` | core/src/core/sha256sum.c:112-131 | The 8 length bytes are those of the bit length exactly under the same condition. |
| `Sha256s.FewestZeros` | core/src/core/sha256sum.c:112-131 | The padding length is the least that fills the block. |
| `Sha256s.HighOfSmall` | core/src/core/sha256sum.c:93-110 | Updates shorter than 2^29 bytes never raise the high count, however many they are. |
| `Sha256s.CountStep` | core/src/core/sha256sum.c:93-110 | What the two 64-bit counters hold after an update; the low one does not wrap below 2^61 bytes. |
| `Sha256s.Context.constructor` | core/src/core/sha256sum.c:84-91 | The initial hash value of section 5.3.3 of FIPS 180-4, and no data. |
| `Sha256s.Context.Expand` | core/src/core/sha256sum.c:53-66 | The message schedule of section 6.2.2. |
| `Sha256s.Context.Transform` | core/src/core/sha256sum.c:53-82 | One block is compressed into the state; `Sha256Trace.DigestOfAbc` follows it round by round. |
| `Sha256s.Context.Absorb` | core/src/core/sha256sum.c:100-110 | The buffer fills, whole blocks are folded in, and the rest stays in the buffer, for pieces of every length. |
| `Sha256s.Context.Update` | core/src/core/sha256sum.c:93-110 | The data seen so far grows by the piece. |
| `Sha256s.Context.Final` | core/src/core/sha256sum.c:112-131 | The digest of the data seen, big-endian, or that of the message with the wrong length field. |
| `Sha256Laws.ChChooses` | core/src/core/sha256sum.c:45-46 | Each bit of `CH` is that of its second argument where the first has the bit set, and else that of the third. |
| `Sha256Laws.MajVotes` | core/src/core/sha256sum.c:47 | Each bit of `MAJ` is that of the majority. |
| `Sha256Laws.RotationsTurn` | core/src/core/sha256sum.c:45 | Rotating is turning so many times, a turn making the lowest bit the highest. |
| `Sha256Laws.TurnsOf` | core/src/core/sha256sum.c:45 | As a number, a word turned `n` times is its quotient by 2^n plus its remainder times 2^(32-n). |
| `Sha256Laws.BigSigma0Bits` | core/src/core/sha256sum.c:48 | Bit `i` of `SIG0` is the parity of the bits `i` + 2, 13 and 22, around the word. |
| `Sha256Laws.BigSigma1Bits` | core/src/core/sha256sum.c:49 | Bit `i` of `SIG1` is the parity of the bits `i` + 6, 11 and 25, around the word. |
| `Sha256Laws.SmallSigma0Bits` | core/src/core/sha256sum.c:50 | Bit `i` of `sig0` is the parity of the bits `i` + 7 and 18, around the word, and of bit `i` + 3 if there is one. |
| `Sha256Laws.SmallSigma1Bits` | core/src/core/sha256sum.c:51 | Bit `i` of `sig1` is the parity of the bits `i` + 17 and 19, around the word, and of bit `i` + 10 if there is one. |
| `Sha256Laws.NoBitAbove` | core/src/core/sha256sum.c:50-51 | There is none above bit 31. |
| `Sha256Laws.WordsAreBytes` | core/src/core/sha256sum.c:57-62 | Reading four bytes as a word and writing a word as four bytes undo each other, and both are the number in base 256 that the length field is written as. |
| `Sha256Constants.ConstantsAreRoots` | core/src/core/sha256sum.c:26-43 | The 64 constants are the first 32 bits of the fractions of the cube roots of primes, in increasing order. |
| `Sha256Constants.NoneMissing` | core/src/core/sha256sum.c:26-43 | These primes are the first ones: none up to the last is left out. |
| `Sha256Constants.InitialValueIsRoots` | core/src/core/sha256sum.c:84-91 | The initial hash value is the first 32 bits of the fractions of the square roots of the first eight primes. |
| `Sha256Trace.DigestOfAbc` | core/src/core/sha256sum.c:53-131 | The digest of `abc` is the one that FIPS 180-4 publishes, through all 48 scheduled words and 64 rounds. |
| `WordFields.SplitIsFieldsExactly` | core/src/shell/expand.c:3284-3365 | The loop by itself, on any bytes with any protection map: it gives the fields of the declarative definition for all texts exactly if the configuration is not the ambiguous one (a 0x01 in IFS, boundaries in the word, and white space in IFS). |
| `WordFields.SplitIsFields` | core/src/shell/expand.c:3284-3365 | In every configuration, for each text in which no byte is a boundary and an unprotected separator at once (and for all texts in the configurations that are not ambiguous): white space collapses, every other delimiter ends one possibly empty field, a trailing empty field is dropped, a boundary ends a field unconditionally, and a protected byte delimits nothing. |
| `WordFields.QuotedBoundariesSplit` | core/src/shell/expand.c:3315-3365 | So for every IFS the words whose boundaries stand between guards, as those of `"$@"` do, are split into their fields. |
| `WordFields.AmbiguousFails` | core/src/shell/expand.c:3284-3365 | In the ambiguous configuration the loop loses a field on three bytes, the last of which is an unprotected 0x01; no `"$@"` makes such a byte. |
| `WordFields.WordKeepsData` | core/src/shell/expand.c:3284-3365 | In every configuration each byte that delimits nothing stands in exactly one field, in order. |
| `WordFields.Splitter.Run` | core/src/shell/expand.c:3284-3365 | The loop over the array, which writes NUL bytes into it and grows the list of fields, makes the fields of the cells it started with, decoded. |
| `WordFields.Splitter.Field` | core/src/shell/expand.c:3320-3350 | One round of the loop. |
| `WordFields.Splitter.SkipDelimiter` | core/src/shell/expand.c:3341-3345 | The delimiter behind a field: white space, at most one other separator, white space. |
| `WordFields.Splitter.Soft` | core/src/shell/expand.c:3341-3350 | The field before it, which is kept if it is not empty or such a separator ends it. |
| `WordFields.Splitter.Emit` | core/src/shell/expand.c:3297-3309 | The field ended in place, decoded and appended. |
| `Markers.PpDecode` | core/src/shell/expand.c:2296-2321 | The loop decodes escaped bytes and drops empty-field placeholders. |
| `Markers.DecodeInvertsEscape` | core/src/shell/expand.c:2256-2321 | Decoding inverts escaping for every text. |
| `Markers.DecodeFullInvertsEscape` | core/src/shell/expand.c:2256-2294 | So does the decoder that also drops markers. |
| `Markers.EscapedHasNoMarker` | core/src/shell/expand.c:2256-2274 | Escaped data never holds a bare marker byte. |
| `WordEncoding.SplitEncoded` | core/src/shell/expand.c:2256-2274 | The splitter does to the bytes of a word what it does to its cells (data of expansions, typed bytes, boundaries, placeholders), whatever bytes 1-5 are in the data; IFS may hold no byte that encodes unquoted data. |
| `WordEncoding.WordsAreFields` | core/src/shell/expand.c:3259-3365 | So there are as many words as fields of the cells, for every IFS, and they are these fields exactly if in each of them no typed byte is the placeholder and a typed escape byte is at most the last one. |
| `WordEncoding.DecodeInvertsEncode` | core/src/shell/expand.c:2296-2321 | Decoding gives the data of a field back and drops the placeholders, if no typed byte gets in the way. |
| `WordEncoding.DecodeExactly` | core/src/shell/expand.c:2296-2321 | It does so exactly for these fields. |
| `WordEncoding.ExpandAt` | core/src/shell/expand.c:2554-2579 | What `"$@"` appends, and the flags it sets. |
| `WordEncoding.BoundarySplit` | core/src/shell/expand.c:3181-3220 | The loop over a word that is not split on IFS cuts at the boundaries and decodes. |
| `WordEncoding.QuotedAt` | core/src/shell/expand.c:2554-2579 | `"$@"` becomes exactly the positional parameters: none for none, empty strings and bytes 1-5 included. |
| `WordEncoding.CutInvertsJoin` | core/src/shell/expand.c:2554-2579 | Cutting at boundaries and decoding inverts the joining of escaped parameters. |
| `WordEncoding.SplitKeepsParameters` | core/src/shell/expand.c:3284-3365 | The same when the IFS loop does the cutting, for every IFS. |
| `WordGuards.StripGuards` | core/src/shell/expand.c:3150-3172 | The guards are taken out of the word, and the map says which bytes stood between them. |
| `WordGuards.StripInvertsEmitted` | core/src/shell/expand.c:2331-2381 | For every word of typed text without guards, expansion results, quoted regions and `$@` in and out of quotes: exactly the quoted bytes and the typed bytes of IFS are protected, no data is lost, the parameters have their boundaries, and each region that emitted nothing has its placeholder. |
| `WordGuards.UnguardedEmitted` | core/src/shell/expand.c:3150-3155 | A word in which no guard was written is split as it is, typed guard bytes included. |
| `WordGuards.StrippedIsKept` | core/src/shell/expand.c:3150-3172 | What the splitter gets of a word stands for its cells, unless a guard byte was typed in a word that has guards. |
| `WordPlaceholders.FieldsWithPlaceholder` | core/src/shell/expand.c:3259-3365 | What one placeholder does anywhere in a text, boundaries included: one field more, or nothing, and exactly when. |
| `WordPlaceholders.WordOfChunks` | core/src/shell/expand.c:2341-2352 | The placeholders that the shell leaves and those that are meant (one for each empty region and each empty quoted parameter) differ in the gaps of the word: without parameters the shell has them in excess, with parameters it leaves them out. |
| `WordPlaceholders.KeptExactly` | core/src/shell/expand.c:2341-2352 | The shell leaves the placeholders it should exactly for the words without gaps. |
| `WordPlaceholders.HarmlessExactly` | core/src/shell/expand.c:3259-3365 | A text with its gaps filled has the same fields as without them exactly if no gap adds a field, and else more. |
| `WordMeaning.WordsMeantExactly` | core/src/shell/expand.c:3064-3395 | For every word: the words of the shell are those that are meant exactly if no typed marker is lost (placeholder; 0x01 in a word with boundaries; guard in a word with guards), no typed escape byte stands in front of other data of its field, and no placeholder that is missing or in excess adds a field. |
| `WordMeaning.WordsAreFieldsOfData` | core/src/shell/expand.c:3119-3395 | Guards, escapes, stripping, splitting and decoding together: the words are the fields of the cells of the word, placeholders kept and then dropped; an empty quoted region is one empty word, `$x"$@"$y` is split inside `$x` and `$y` and between the parameters and nowhere else. |
| `WordMeaning.LostIsMissed` | core/src/shell/expand.c:3144-3149 | A word in which a typed marker is lost never becomes what is meant, whatever else is in it: its words have fewer marker bytes. |
| `WordMeaning.FieldsUnharmed` | core/src/shell/expand.c:3284-3365 | The fields can all be decoded exactly if each typed escape byte has a delimiter behind it, or the end. |
| `WordLosses.TypedText` | core/src/shell/expand.c:3144-3149 | `$x"s"` with an empty `x`, for every typed text `s`, every IFS and all parameters: one word, and it is `s` exactly if no byte of `s` is 0x02, 0x03 or 0x05 and 0x04 is at most its last byte. |
| `WordLosses.LastParameter` | core/src/shell/expand.c:3320-3350 | `"$@"$y` with two or more parameters becomes what is meant exactly if the last parameter is not empty, or `y` does not begin with white space of IFS, or another separator follows that white space. |
| `WordLosses.EmptyParameterLost` | core/src/shell/expand.c:3320-3350 | With parameters `a` and nothing, and ` z` in `y`: `a`, `z` instead of `a`, nothing, `z`. |
| `WordLosses.ParamsTwice` | core/src/shell/expand.c:2341-2352 | `$x"$@""$@"` with an empty `x` and no parameters becomes one empty word, for every IFS; none is meant. |
| `WordExpander.ExpandWord` | core/src/shell/expand.c:3064-3395 | The way of a word that is split, in place: buffer and flags, stripping, splitting; whatever was typed. The words are the meant ones exactly under the condition of `WordsMeantExactly`; what they are is said without the shell's own means in `WordParameters`. |
| `WordExpander.Expander.GuardOpen` | core/src/shell/expand.c:2331-2339 | The outermost guard is written, and what `at_expanded_empty` was is noted. |
| `WordExpander.Expander.GuardClose` | core/src/shell/expand.c:2341-2352 | The outermost guard closes, with a placeholder if the last byte is a guard that opens and no `"$@"` without parameters was first met since. |
| `WordExpander.Expander.EmitLiteral` | core/src/shell/expand.c:2366-2381 | Typed text outside quotes: each byte of IFS is guarded by itself. |
| `WordExpander.Expander.EmitParams` | core/src/shell/expand.c:2605-2640 | `$@` outside quotes: joined with the first byte of IFS, or with boundaries if IFS is empty; what words that makes is in `WordParameters`. |
| `WordExpander.Expander.EmitBounded` | core/src/shell/expand.c:2622-2635 | With an empty IFS the empty parameters are passed over and boundaries stand between the others. |
| `WordExpander.Expander.EmitRegion` | core/src/shell/expand.c:2389-2412 | A quoted region between its guards, and the flags behind it. |
| `WordExpander.Expander.EmitWord` | core/src/shell/expand.c:2383-2712 | The buffer holds what the word emits, and the flags say whether it has boundaries and guards. |
| `WordParameters.ParamsAsTheyAre` | core/src/shell/expand.c:2601-2640 | Parameters that are not empty and hold no byte of IFS come out of `$@` outside quotes as they are, one word each, in order. |
| `WordParameters.ParamsSplit` | core/src/shell/expand.c:2601-2640 | For every IFS that is not empty: `$@` outside quotes is the fields of the first parameter, then of the second, and so on, exactly if the first byte of IFS keeps the parameters apart. White space does unless a parameter that ends in data is followed by one that begins with another separator; another separator does unless a parameter but the last ends in a separator or has no data. |
| `WordParameters.MarkBehindBlank` | core/src/shell/expand.c:2601-2640 | With IFS a blank and a colon, `x` and `:y` give `x` and `y`; split each by itself they give `x`, an empty word and `y`. |
| `WordParameters.ParamsUnderEmptyIfs` | core/src/shell/expand.c:2622-2635 | With an empty IFS the parameters that are not empty come out in order, unsplit. |
| `WordParameters.QuietWord` | core/src/shell/expand.c:3064-3395 | A word without `$@`, without typed markers and without a byte of IFS in its unquoted results is one word: its text in order without the quotes, whatever bytes of IFS are typed; without text it is an empty word if it has quotes, and else none. |
| `WordParameters.WhiteBetween` | core/src/shell/expand.c:3341-3350 | White space between two texts: their fields one after another, but for the empty field of a separator that it merges with. |
| `WordParameters.MarkBetween` | core/src/shell/expand.c:3341-3350 | Any other separator between two texts ends a field, if need be an empty one. |
| `WordParameters.SeparatorKinds` | core/src/shell/expand.c:3320-3345 | The unquoted bytes of IFS separate; white space of C among them collapses, the others do not; quoted bytes do not separate. |
| `Scanners.ScannerInvertsPrinting` | core/src/shell/expand.c:2121-2169 | For every tree of literals, escapes, single quotes, double quotes, backticks, arithmetic and nested `${...}`, the scan of the printed body, `}` and any suffix returns exactly the position of that `}`. |
| `Scanners.ScanPasses` | core/src/shell/expand.c:2121-2169 | The scan passes over any printed items as if they were not there. |
| `Scanners.ScannersAgree` | core/src/shell/expand.c:2175-2222 | On every string where no `$$` directly before `{` or `(` is met, the expander stops exactly at the quote that the skipper steps past. |
| `Scanners.ScannersAgreeExactly` | core/src/shell/expand.c:2175-2222 | On all strings: they agree exactly if no such `$$` is met, or if from the first one on the skipper, past the construct that begins with the second `$`, gets where the expander, behind `$$`, gets; with no other such `$$` behind, that compares two positions of the skipper. |
| `Scanners.InStepExactly` | core/src/shell/expand.c:2175-2222 | For all strings, by their bytes: let of the two cursors the one that is behind go on by one turn; they agree exactly if they always come together again, or stop at the same quote. |
| `Scanners.SimpleExactly` | core/src/shell/expand.c:2175-2222 | If the expander comes to the end of each such construct, or to a quote inside (it may pass escapes, names, backquotes and constructs on the way): they agree exactly if it comes to no quote inside, but for an unclosed construct whose quote ends the string. |
| `Scanners.QuoteInside` | core/src/shell/expand.c:2184-2207 | If the expander meets a quote inside the construct that the skipper goes past, they agree only if string, construct and quote end together. |
| `Scanners.PlainInside` | core/src/shell/expand.c:2184-2207 | If the construct holds no quote, backslash, `$` or backquote, they are together again behind it. |
| `Scanners.ToFirstPid` | core/src/shell/expand.c:2175-2222 | Up to the first such `$$` the two go together. |
| `Scanners.PidBraceDisagrees` | core/src/shell/expand.c:2646-2652 | An input with `$${` and a quote inside the braces on which they differ. |
| `Scanners.PidBraceAgrees` | core/src/shell/expand.c:2646-2652 | One with `$${` on which they agree. |
| `Scanners.WalkStopsAtQuote` | core/src/shell/expand.c:2383-2712 | The expander stops at a double quote or at the end. |
| `Scanners.QuotedRegion` | core/src/shell/expand.c:2400-2412 | The walk over a quoted region stops at a quote or at the end, and the jump over it ends behind that quote exactly if the two scanners agree there. |
| `Scanners.CmdsubstBodyEnd` | core/src/shell/expand.c:2034-2101 | The loop with its quotes, comments and `case` heuristics is the function that the other scanners use. |
| `Scanners.SkipDollarConstruct` | core/src/shell/expand.c:2184-2207 | `$(...)`, `$((...))` and `${...}` are skipped alike by the scanners. |
| `Scanners.ScanBracedEnd` | core/src/shell/expand.c:2121-2169 | The loop computes `Braced`. |
| `Scanners.SkipDquoteEnd` | core/src/shell/expand.c:2175-2222 | The loop computes `SkipQuoted`. |
| `Scanners.ExpandQuoted` | core/src/shell/expand.c:2383-2712 | The cursor of the expander in a double-quoted region. |
| `CommandBodies.BodyEnds` | core/src/shell/expand.c:2034-2101 | For every command of plain bytes, escapes, quotes, comments and nested groups in which the word `case` does not stand: the scan of its text and `)` ends exactly at that `)`, whatever parentheses are in the quotes, escapes and comments. |
| `CommandBodies.BodyPasses` | core/src/shell/expand.c:2034-2101 | It passes over such a text anywhere as if it were not there. |
| `CommandBodies.CaseEnds` | core/src/shell/expand.c:2034-2101 | In `case ... ;esac` the parentheses behind the patterns do not end the command; the one behind `esac` does. |
| `Patterns.LiteralMatches` | core/src/shell/expand.c:330-338 | A pattern without metacharacters matches itself and nothing else. |
| `Patterns.EmitIsExact` | core/src/shell/expand.c:2840-2846 | The pattern made of quoted text matches that text and nothing else, for every text. |
| `Patterns.FastPathOnlyUnescaped` | core/src/shell/expand.c:330-338 | Quoted text takes the literal fast path exactly if quoting changed nothing in it: the two sets of characters are in step. |
| `Patterns.PatternLiteralLen` | core/src/shell/expand.c:330-338 | The length of a pattern without metacharacters, and else -1. |
| `Patterns.EmitLiteral` | core/src/shell/expand.c:2840-2846 | The loop that quotes a text for a pattern. |
| `Patterns.MatchPrefix` | core/src/shell/expand.c:340-362 | Fast path or search: the longest prefix that matches, and -1 exactly if none does. |
| `Patterns.MatchPrefixShortest` | core/src/shell/expand.c:364-389 | The shortest. |
| `Patterns.MatchSuffix` | core/src/shell/expand.c:391-406 | The start of the longest suffix that matches, and -1 exactly if none does. |
| `Patterns.MatchSuffixShortest` | core/src/shell/expand.c:408-423 | The shortest. |
| `Patterns.TrimPrefix` | core/src/shell/expand.c:914-928 | `${v#pat}` and `${v##pat}`. |
| `Patterns.TrimSuffix` | core/src/shell/expand.c:930-942 | `${v%pat}` and `${v%%pat}`. |
| `Patterns.TrimQuotedPrefix` | core/src/shell/expand.c:914-928 | With quoted text, exactly that text goes if the value begins with it, and else nothing. |
| `Patterns.TrimQuotedSuffix` | core/src/shell/expand.c:930-942 | The same at the end. |
| `Patterns.ReplaceLiteral` | core/src/shell/expand.c:1016-1042 | The `memcmp` loop gives the leftmost longest replacement. |
| `Patterns.ReplaceGeneral` | core/src/shell/expand.c:1057-1093 | So does the general loop, for every pattern. |
| `Patterns.Substitute` | core/src/shell/expand.c:1016-1099 | `${v/pat/repl}` and `${v//pat/repl}`: both paths refine the same replacement; an empty pattern changes nothing. |
| `Patterns.LiteralAt` | core/src/shell/expand.c:1016-1042 | Where a literal stands, it is the longest match, and there is no other. |
| `Patterns.ReplaceByItself` | core/src/shell/expand.c:1016-1099 | Replacing a literal by itself changes nothing. |
| `Patterns.ReplaceNothing` | core/src/shell/expand.c:1057-1093 | A pattern that matches nowhere changes nothing. |
| `Patterns.NoneLeft` | core/src/shell/expand.c:1016-1042 | After a global replacement of a byte by text without it, it is gone. |
| `Globs.MatchAccepts` | core/src/shell/expand.c:340-423 | A pattern matches exactly the texts that can be cut into a stretch for each of its items: a byte, perhaps escaped, itself; `?` one byte; `*` any stretch; a bracket expression one byte that is, or with `!` or `^` is not, among its bytes and ranges. |
| `Globs.MembersAmong` | core/src/shell/expand.c:340-423 | The bytes of a bracket expression are those of its members, escaped ones and ranges included. |
| `SedRanges.RangeCommand.CmdMatches` | core/src/core/sed.c:1813-1926 | The update of `active` and `end_line` in place, for all kinds of addresses. |
| `SedRanges.RunSelectsRanges` | core/src/core/sed.c:1816-1926 | Over every stream of records that reach the command (some or all lines of the input, in order, each as often as it comes), a record is selected exactly if a range of the declarative definition covers it, and the end that the second address makes is reported exactly there. |
| `SedRanges.StepDescribes` | core/src/core/sed.c:1816-1926 | The invariant: the state says whether the current line is inside a range, and where that ends. |
| `SedRanges.RangeOfNext` | core/src/core/sed.c:1816-1926 | A range goes on to its end, and only outside of one can another begin. |
| `SedRanges.RangesAreContiguous` | core/src/core/sed.c:1816-1926 | Ranges are stretches of records and do not overlap. |
| `SedRanges.NegationComplements` | core/src/core/sed.c:1923-1926 | `!` selects the other records and leaves the state as it is. |
| `SedRanges.RangeSelects` | core/src/core/sed.c:1816-1926 | All records of a range are selected. |
| `SedRanges.RelSelectsNPlusOne` | core/src/core/sed.c:1844-1903 | `addr,+N` selects all records up to the first whose line number is N more than the first one, or up to the last line, and reports exactly the former as the end. |
| `SedRanges.MultEndsAtMultiple` | core/src/core/sed.c:1851-1865 | `addr,~N` ends at the first record from the least multiple of N on that is not below its first line; at that multiple if all lines reach the command. |
| `SedRanges.ZeroRangeNeverRestarts` | core/src/core/sed.c:1824-1834 | `0,/re/` selects the records up to the first match, which may be the first one, and no others, also when the last line comes again. |
| `SedRanges.EndIsSeen` | core/src/core/sed.c:1886-1921 | The test on a later record of a range is true exactly at its end. |
| `SedRanges.StopIsSeen` | core/src/core/sed.c:1886-1921 | A range is left there, or at the last line. |
| `SedRanges.EndIsSeenAtOnce` | core/src/core/sed.c:1836-1884 | So is the test on its first record. |
| `SedRanges.AddressNames` | core/src/core/sed.c:1787-1808 | `first~step` names `first` and every `step`-th line behind it, `first` alone if `step` is 0; a number names its line and `$` the last. |
| `SedSubsts.DoSubst` | core/src/core/sed.c:1945-2051 | For every sound regex oracle the loop ends, and the new text is the old one with exactly the selected matches replaced and all other text kept in order; something was replaced exactly if there are at least as many matches as the number flag says, and else the text is untouched. |
| `SedSubsts.AcceptedInOrder` | core/src/core/sed.c:1970-2040 | The matches that count go left to right, do not overlap, and none is an empty match directly behind another. |
| `SedSubsts.AmpersandChangesNothing` | core/src/core/sed.c:1945-2051 | With `&` as replacement the text stays as it was, for all flags. |
| `SedSubsts.SpliceOfItself` | core/src/core/sed.c:1999-2041 | Replacing any matches by themselves gives the text back. |
| `SedSubsts.AppendCased` | core/src/core/sed.c:1930-1943 | Each byte in the case that is due; a one-shot conversion is used up by the first byte. |
| `SedSubsts.AppendReplacement` | core/src/core/sed.c:1999-2025 | The tokens of the replacement, with the case state carried from one to the next. |
| `SedSubsts.MatchTaken` | core/src/core/sed.c:1995-2029 | One more match: spliced in if the flags take it, and else copied. |
| `SedSubsts.SelectedSettles` | core/src/core/sed.c:2037-2038 | Leaving the loop after the n-th match is sound: later matches do not matter. |
| `SedSubsts.RenderParts` | core/src/core/sed.c:1999-2025 | Without case conversion the parts of a replacement stand one after another. |
| `SedSubsts.PartRenders` | core/src/core/sed.c:1999-2025 | Text stands for itself, and `\1` to `\9` for what their groups matched, or for nothing. |
| `SedSubsts.CasedLetters` | core/src/core/sed.c:1930-1943 | Case conversion takes a letter to the letter at the same place of the other alphabet, and nothing else. |
| `SedSubsts.CaseTextAt` | core/src/core/sed.c:1930-1943 | A lasting conversion reaches every byte; a one-shot conversion the first, whatever the lasting one. |
| `SedSubsts.CaseOfMatch` | core/src/core/sed.c:1999-2025 | `\U&\E` and `\L&\E`: the match in the other case, and the text behind as it is. |
| `SedSubsts.CapitalOfMatch` | core/src/core/sed.c:1999-2025 | `\u\L&` and `\l\U&`: the first byte of the match in one case and the others in the other. |
| `SedReplaces.ByteReplaced` | core/src/core/sed.c:1945-2051 | `s/c/x/g`, `s/c/x/n` and `s/c/x/ng` for a single byte `c`: every `c` is replaced, or the n-th, or the n-th and all behind it; without so many the text stays. |
| `SedReplaces.GapsFilled` | core/src/core/sed.c:2027-2041 | An expression that matches the empty text everywhere is replaced once at every place, the end included. |
| `SedMachines.DriveSame` | core/src/core/sed.c:2135-2398 | A flat list with the jumps of `parse_script` behaves as the script whose blocks are run or skipped whole, on every input, from every state, for any number of steps; branches to labels in and out of blocks are included. |
| `SedMachines.SegmentRuns` | core/src/core/sed.c:2135-2144 | The loop over the list does what the blocks say, with the same output, spaces and range states, and goes on behind them. |
| `SedMachines.SegmentResumes` | core/src/core/sed.c:2372-2392 | The same from behind a label, out of the blocks around it. |
| `SedMachines.CompiledRunsSame` | core/src/core/sed.c:2116-2410 | Whole runs over any stream of records. |
| `SedMachines.FirstLabelIs` | core/src/core/sed.c:1340-1357 | The first label of a name in the list is the first in the script. |
| `SedMachines.NestingLimit` | core/src/core/sed.c:1030-1040 | `k` blocks around `2{d}`: on line 1 the list does what the script says exactly if at most 64 blocks are nested; beyond that the `{` has no jump and its block is entered. |
| `SedCompile.LinkedIffScript` | core/src/core/sed.c:1029-1044 | The braces match exactly if the tokens are those of a script with nested blocks. |
| `SedCompile.ScriptPlaced` | core/src/core/sed.c:1029-1044 | The jumps are those of the blocks: from each `{` with fewer than 64 around it to its own `}`. |
| `SedCompile.LinkVerdict` | core/src/core/sed.c:1029-1044 | What the loop over the braces gives, by where the reading of blocks stops. |
| `SedCompile.BraceErrors` | core/src/core/sed.c:1029-1044 | `unexpected }` exactly if it stops at a `}`, `unmatched {` exactly if it stops at a `{`. |
| `SedCompile.DepthBound` | core/src/core/sed.c:1030-1040 | The scripts with at most `k` nested blocks all make the same pass over a record as their lists, exactly if `k` is at most 64. |
| `SedCompile.Compilable` | core/src/core/sed.c:1029-1044 | Every script has a list with the jumps of its blocks. |
| `SedCompile.Parser.LinkBlocks` | core/src/core/sed.c:945-1044 | The loop with its stack of 64 entries, updated in place. |
| `SedCompile.Parser.ResolveBranches` | core/src/core/sed.c:1340-1357 | Every branch leads to the first label of its name, or a missing label is reported. |
| `SedCompile.Parser.ParseScript` | core/src/core/sed.c:927-1361 | The compiled list, or one of three errors, each exactly when it applies: which brace is wrong, or a label that is branched to and missing. |
| `SedCompile.FlattenSpells` | core/src/core/sed.c:927-1044 | The tokens of a script. |
| `SedRun.Sed` | core/src/core/sed.c:2116-2410 | Parser and machine together: a script of at most 64 nested blocks does what its blocks say; what the commands say is in `SedPrograms`, `SedScripts` and `SedLoops`. |
| `SedRun.Machine.FlushPending` | core/src/core/sed.c:1411-1417 | A delimiter that was left out is written before anything else. |
| `SedRun.Machine.WriteRecord` | core/src/core/sed.c:1425-1440 | A record, and its delimiter or the note that it is missing. |
| `SedRun.Machine.WriteAppends` | core/src/core/sed.c:1658-1693 | The queue is written in order and emptied. |
| `SedRun.Machine.ReadRecord` | core/src/core/sed.c:1597-1633 | The next record, from the lookahead or the input; the line number, the last-line flag and the substitution flag. |
| `SedRun.Machine.Applies` | core/src/core/sed.c:1816-1926 | Whether a command applies, with its own range state. |
| `SedRun.Machine.DoMove` | core/src/core/sed.c:2179-2216 | `g G h H x z y`: text and delimiter flag travel together. |
| `SedRun.Machine.DoBranch` | core/src/core/sed.c:2372-2392 | `b t T`, and what they do to the substitution flag. |
| `SedRun.Machine.DoWrite` | core/src/core/sed.c:2148-2290 | `p P = i a`. |
| `SedRun.Machine.DoRead` | core/src/core/sed.c:2245-2282 | `n` and `N`, at the end of input too; what they do to whole streams is in `SedLoops`. |
| `SedRun.Machine.DoSubstitute` | core/src/core/sed.c:2336-2362 | `s` with its print flag. |
| `SedRun.Machine.DoFinish` | core/src/core/sed.c:2161-2296 | `d D q Q c`. |
| `SedRun.Machine.DoDeleteFirst` | core/src/core/sed.c:2161-2178 | `D`: the first line goes, and the cycle begins again without a new record. |
| `SedRun.Machine.Execute` | core/src/core/sed.c:2144-2397 | One command. |
| `SedRun.Machine.RunSegment` | core/src/core/sed.c:2135-2398 | The loop over the list up to a branch or the end of the cycle. |
| `SedRun.Machine.Continue` | core/src/core/sed.c:2400-2419 | The end of a cycle, of a stream, and the next record. |
| `SedRun.Machine.Run` | core/src/core/sed.c:2116-2420 | The whole run, for at most a given number of stretches of commands. |
| `SedPrograms.TacReverses` | core/src/core/sed.c:1597-1633 | `1!G;h;$!d` on every stream prints its records in reverse order; the last delimiter is there exactly if the first record had one. |
| `SedPrograms.TacMachineReverses` | core/src/core/sed.c:2116-2410 | The compiled list does so, for every stream of terminated lines. |
| `SedPrograms.TacCycle` | core/src/core/sed.c:2135-2410 | One cycle of it, on any state. |
| `SedPrograms.NextLine` | core/src/core/sed.c:2400-2411 | The end of any cycle with an empty queue goes to the next line of the stream, or ends the run at its end. |
| `SedPrograms.EmptyScriptCopies` | core/src/core/sed.c:1425-1433 | The empty script copies its input: a missing delimiter is supplied inside the stream and not at its end. |
| `SedScripts.SwapTwiceCopies` | core/src/core/sed.c:2203-2212 | `x;x` copies its input. |
| `SedScripts.QuitPrintsFirst` | core/src/core/sed.c:2235-2238 | `nq` prints the lines up to line `n`, and ends with the exit code of the command if there is such a line. |
| `SedScripts.QuitSilentlyPrintsBefore` | core/src/core/sed.c:2239-2244 | `nQ` prints the lines before line `n`. |
| `SedScripts.CountCounts` | core/src/core/sed.c:2217-2234 | `$=` under `-n` prints the number of lines. |
| `SedScripts.DecimalReads` | core/src/core/sed.c:2217-2234 | The number that `=` prints: digits, without a leading zero, whose value is the line number. |
| `SedScripts.JoinJoins` | core/src/core/sed.c:2179-2212 | `H;$!d;x` prints a delimiter and all lines in order, as one record. |
| `SedScripts.BeforeLastPrints` | core/src/core/sed.c:2179-2196 | `$!{h;d};g` prints the last line but one, which the hold space has on the last line, or an empty line if there is only one. |
| `SedScripts.PrintCopies` | core/src/core/sed.c:2148-2152 | `p` under `-n` copies its input. |
| `SedScripts.EmptyLines` | core/src/core/sed.c:2213-2216 | `z` empties every line and leaves its delimiter alone. |
| `SedScripts.InsertAndAppend` | core/src/core/sed.c:2283-2290 | `i` and `a` print the text as a whole line before and behind every line, also behind one that lacks its delimiter. |
| `SedScripts.ChangeChanges` | core/src/core/sed.c:2291-2296 | `c` prints the text in place of every line. |
| `SedScripts.TranslateTranslates` | core/src/core/sed.c:2364-2371 | `y` replaces each listed byte of every line and leaves all else. |
| `SedScripts.RunsThrough` | core/src/core/sed.c:2116-2420 | What a script writes from each line to the next, its run writes from the first to the last. |
| `SedLoops.OddLinesStay` | core/src/core/sed.c:2245-2259 | `n;d` prints exactly the lines 1, 3, 5 and so on. |
| `SedLoops.PairsJoin` | core/src/core/sed.c:2260-2282 | `N` joins lines 1 and 2, 3 and 4, and so on, in this order; an odd last line is printed alone, and in POSIX mode not at all. |
| `SedLoops.PairwiseCopies` | core/src/core/sed.c:2153-2178 | `$!N;P;D` copies its input. |
| `SedLoops.GrepFilters` | core/src/core/sed.c:2377-2392 | `s/re/&/;t;d` prints exactly the lines in which the expression matches, and `s/re/&/;T;d` exactly the others. |
| `SedLoops.PrintMatchesPrints` | core/src/core/sed.c:2336-2362 | `s/re/&/p` under `-n` prints exactly the lines in which it matches. |
| `SedLoops.LoopCleans` | core/src/core/sed.c:2372-2392 | `:a;s/c//;ta` and `:a;s/c//;Tb;ba;:b` take every `c` out of every line, for a single byte `c`. |
| `SedLoops.WithoutIs` | core/src/core/sed.c:2372-2392 | What they leave holds no `c`, all other bytes as often as before, and a text without `c` as it is. |
| `SortKeys.CmpVersion` | core/src/core/sort.c:258-296 | The sign of the lexicographic order of version keys, in which each run of digits counts as its natural number. |
| `SortKeys.CompareNumbers` | core/src/core/sort.c:279-291 | Comparing lengths and then bytes, without leading zeros, is comparing the numbers. |
| `SortKeys.LongerIsLarger` | core/src/core/sort.c:286-289 | Of two numbers without leading zeros the longer is the larger. |
| `SortKeys.VersionRound` | core/src/core/sort.c:265-276 | One stretch of text decides, or the rest does. |
| `SortKeys.CmpTransitive` | core/src/core/sort.c:258-296 | The order of keys is transitive. |
| `SortKeys.CmpAntisymmetric` | core/src/core/sort.c:258-296 | It is antisymmetric, and equal only for equal keys. |
| `SortKeys.KeyCompareStrings` | core/src/core/sort.c:334-368 | With the filters `-b -d -f -i` and the modes `-n -V -M` or none, the comparison is the order of one key for each string, reversed by `-r`. |
| `SortOrders.CompareLines` | core/src/core/sort.c:370-432 | The first key that differs decides, reversed by the flags of key and command; then the place in the input, never reversed. |
| `SortOrders.CompareIsStrict` | core/src/core/sort.c:370-432 | Lines at different places never compare equal, and the comparison is antisymmetric. |
| `SortOrders.CompareIsTransitive` | core/src/core/sort.c:370-432 | It is transitive: a strict total order. |
| `SortOrders.SortedIsUnique` | core/src/core/sort.c:434-439 | There is only one sorted list of given lines. |
| `SortOrders.SortedIsStable` | core/src/core/sort.c:434-439 | In it lines with equal keys stand in the order of the input. |
| `SortOrders.DedupLines` | core/src/core/sort.c:701-721 | In place: the kept lines move to the front, the array behind the counted lines is untouched. |
| `SortOrders.DedupKeepsFirsts` | core/src/core/sort.c:701-721 | On a sorted array, comparing each line with the last one kept keeps exactly the first line of every class. |
| `SortOrders.EarliestIsKept` | core/src/core/sort.c:701-721 | Every line has a kept line of its class, and that is the one that came first in the input. |
| `SortOrders.KeptAreDistinct` | core/src/core/sort.c:701-721 | No two kept lines have the same keys. |
| `SortLaws.NumbersInOrder` | core/src/core/sort.c:344-368 | `sort -n` orders printed numbers by their size, with `-r` the other way round, and equal ones as they came. |
| `SortLaws.NumberKey` | core/src/core/sort.c:344-356 | The key of `-n` is the number that is printed behind white space, with its sign; what follows does not count, and a number out of range counts as the nearest in range. |
| `SortLaws.NoNumber` | core/src/core/sort.c:344-356 | Text without a number has no key. |
| `SortLaws.ReverseTurns` | core/src/core/sort.c:370-432 | `-r` turns the order of the keys round. |
| `SortLaws.KeyReverseTurns` | core/src/core/sort.c:420-428 | The `-r` of a key turns that key alone, and cancels with that of the command. |
| `SortLaws.MonthKey` | core/src/core/sort.c:231-256 | The key of `-M` is the number of the month whose first three letters, of either case, stand behind blanks. |
| `SortLaws.BytesDropped` | core/src/core/sort.c:311-320 | `-d` drops punctuation and control bytes, `-i` what is not printable; letters, digits and blanks stay. |
| `SortLaws.DroppedIsAbsent` | core/src/core/sort.c:303-332 | A byte that is dropped might as well not be there. |
| `SortLaws.OthersStay` | core/src/core/sort.c:303-332 | The others stay, in order, and `-f` changes only the case of letters. |
| `SortLaws.LowerLetters` | core/src/core/sort.c:322 | `-f` takes a capital to the small letter at the same place of the alphabet. |
| `SortLaws.BlanksDoNotCount` | core/src/core/sort.c:303-332 | `-b` skips white space in front. |
| `RealPaths.RelativeLeadsBack` | core/src/core/realpath.c:20-93 | Followed component by component from `base`, the relative path leads to `target` exactly if it has room in the buffer of 8192 bytes; for all canonical paths, the root included. |
| `RealPaths.DeepPaths` | core/src/core/realpath.c:55-93 | From `/a/a/...` to `/b/b/...`: exactly at which depths. |
| `RealPaths.AllowedPathsMiss` | core/src/core/realpath.c:55-93 | Two paths of 4000 and 2200 bytes for which it has no room. |
| `RealPaths.ShortPathsFit` | core/src/core/realpath.c:55-93 | It has room if three times the length of `base` and twice that of `target` are at most 16384 together. |
| `RealPaths.RestIsOthers` | core/src/core/realpath.c:27-51 | Behind the cut, the names that differ are left of both paths, also where one name is a prefix of the other, and at the root. |
| `RealPaths.CutIsCommon` | core/src/core/realpath.c:27-46 | The cut is behind the longest common prefix of names. |
| `RealPaths.FindCut` | core/src/core/realpath.c:27-46 | The two cursors and the two marks find that cut. |
| `RealPaths.MakeRelative` | core/src/core/realpath.c:20-93 | The text that is written into the buffer. |
| `RealPaths.FillUps` | core/src/core/realpath.c:58-67 | `../` for every slash that is left of `base`, while there is room. |
| `RealPaths.UpAndDown` | core/src/core/realpath.c:55-89 | Following `../` so many times and then the names. |

## Left out

- Arith.ArithParser.ReadName: names with `${...}` or `$name` in them, which the text has only if it was not expanded
  before, and the 256-byte buffer.
- Arith.ArithParser.PrimaryExpr: operands that begin with `$`.
- Arith.ArithParser.VariableOperand: a variable holds an integer, not an expression; behind an unset name under `set -u`
  the model stops, where an interactive shell goes on with the next command.
- Signed overflow in arithmetic: `+`, `-` and `*` abort the model where C leaves the result undefined.
- Fields of words: tilde and pathname expansion, and what a `${...}` puts together, which counts as the result of an
  expansion.  `$*` in quotes counts as its parameters with the first byte of IFS typed between them: the code writes that
  byte as it is, so one of the bytes 1-5 there fares as a typed one.
- WordMeaning.WordsMeantExactly: an unquoted result with one of the bytes 1-5 in it, when IFS holds that byte or the bytes
  that encode it.
- Scanners.ExpandQuoted: the text that `expand_into` appends, here-documents and the words of `${v-word}` are not modelled; only where it stops.
- Scanners.ScannerInvertsPrinting: the printed trees hold no `$(...)`, whose end is a matter of heuristics for `case`.
- Patterns: character classes such as `[:alpha:]` inside brackets, and the 512-byte buffer for patterns.
- The regular expressions of sed are an oracle, and the recall of the last one by an empty expression is not modelled.
- sed: the commands `w W r R e F l v`, in-place editing, separate files, and option parsing; whether the machine looks one record ahead is a parameter, which the code sets if the script uses `$`.
- SedRun.Machine.Run: runs at most a given number of stretches of commands, because a script may run forever; the theorems hold for every such number.
- The lexer of sed scripts: addresses, texts, replacements and labels are taken as parsed, comments as dropped.
- The hash map stores NULL values as present, as the code does; freeing the table is not modelled.
- The cache: the flag for paths that the shell itself wrote, and running out of memory.
- SHA-256: check files, and messages of 2^61 bytes or more, for which the 64-bit counter wraps.
- sort: `-g` and `-h`, random order, where `-k` takes its text from, merging, and `qsort` itself, of which only is used that its result is a sorted permutation.
- `realpath`: resolving symbolic links and canonicalizing; both paths are given in canonical form.
- The other tools of the repository, the module loader, job control and the parser of the shell: they would add mostly easy members.
