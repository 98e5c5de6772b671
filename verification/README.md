# Verification of the Patchwork printer, patch engine and installed code

This project models the parts of Patchwork that carry its logic and proves what they are for. It is plain Dafny: check
it with `dafny verify dfyconfig.toml`.

## The formatted printer

`Vsnprintf` (src/tools/printf.c) is a state machine that reads a format one character at a time and writes through one
bounded-buffer macro. The model has it twice. `FormatGrammar` reads a format string into a tree of directives, and
`FormatMeaning.Meaning` says what a tree prints, which arguments it consumes and which counts `%n` stores, with no
buffer and no states. `Printer.Vsnprintf` is the state machine itself, a method over an array with the formatting
routines of `Formatters` under it. It is proved to do exactly what `Meaning` says for every format, argument list,
buffer and size. The two are connected by `Resumption`: for every state, the outcome still to come from there, and for
every transition the equation that says it keeps that outcome.

What is then proved about the meaning: every format string has one reading; what the buffer holds; reading a printed
number back; field sizes; concatenation; overflow; flags; and when it is what ISO/IEC 9899:1999 (C99), section
7.19.6.1, asks for, with the `'` flag as in the Single UNIX Specification, version 2 (SUSv2).

`FormatConformance.C99Meaning` is that other meaning. It says which directives are defined, what type of argument they
take and what they print; the characters of floating-point numbers and of wide characters are arbitrary functions, for
C99 leaves them to the platform. `DirectiveMeetsC99` is the exact condition for one directive, whatever its flags.
`AskedText` writes the same out in letters, so that nothing rests on a table the printer also uses.
`FormatMeetsC99` holds for every format none of whose directives departs. The converse, `Departures.MeetsC99Exactly`,
holds of every format in which at most one directive that is performed departs, and of every format all of whose
departures are steady ones: such departures never make up for each other. Not steady are the departures of wide
characters, of `t` integers where only `ptrdiff_t` has 64 bits, and of integers with the `'` flag whose separators take
the place of zeros. With two departures or more these cannot be included: `Cancellations` has, for each of the three
kinds, a format in which several departures cancel.

The departures, each with a format and arguments that show it in `DepartureExamples` unless another lemma is named:

- the value 0 with precision 0 prints `0`, because `convert` always emits a digit (`%.0d`);
- with the `'` flag the separators are counted in both pad lengths, so a field can be too short (`%'.6d`), or lose the
  zero `#o` asks for (`%'#o`, which SUSv2 leaves undefined);
- `%c` ignores its width (`%3c`);
- `%zd` fetches an unsigned `size_t`, and the `t` conversions fetch a signed `long` whatever `ptrdiff_t` is, so values can
  be widened the wrong way or cut (`%zd`, `%tu`), and `%tn` can store an object of another width; the comments at
  src/tools/printf.c:198-213 say this works in practice;
- the floating-point conversions, which the file's history at src/tools/printf.c:26-29 says were removed, are unknown
  ones: they print nothing and leave their argument to the next directive (`%f`); `%Lf` prints the `f`;
- `%lc` prints the low byte of a wide character, and `%ls` reads bytes (both);
- a text of exactly INT_MAX characters returns -1 (`%2147483647d`);
- `fmtstr` reads the cell at the precision, so an array of just that many cells without a NUL, which C99 allows, is left
  (`Formatters.ReadLeavesArray`).

Where C99 says nothing the model follows the code: other unknown conversions print nothing and consume no argument,
`%%` ignores its width, and digits may stand before `*` (`%5*d`), which then overrides them.

## The patch engine and the code it installs

`Patches.GameMemory.ApplyGamePatches` folds a table of direct and indirect byte writes into a big-endian memory.
`Hooks` holds the assembly programs as instructions, `PowerPC` encodes and decodes them (Power ISA, Book I), and
`Machine` runs them one instruction at a time, fetching words from memory and decoding them. A called game routine is
an arbitrary function of the whole state that keeps the non-volatile registers. The end-to-end theorems start from a
memory in which the module and its hooks are loaded, apply the shipped table, and speak of every run: the branch word
is fetched and decoded, the hook runs, and the run leaves at the right address with the right calls made.
`LoadedModule` shows that the hypotheses of these theorems can be met in all four games.

The numeric branch operands in src/hooks/forcejoin-patch.s have their low two bits set; the displacement is the operand
rounded down to a multiple of four, as the target comments for LBP1, LBP2 and LBP3JP say. The comment at line 77 of
that file names an address of LBP2 as LBP3's success path; the operand, which the model follows, leads to 0x305650.

The Go tool's side is `PatchGenerator` (how far `GetHook` reads) and `EmulatorPatches` (overwrites as lists of words).

## Conventions

`Option` and `Result` stand for null pointers, panics and errors. `OutBuffer` is the triple of buffer, size and running
length the C routines pass around; its ghost `text` is everything handed to `OUTCHAR`. A `va_list` is a function from
positions to slots; a slot has the word passed and the string it points at. The ABI is a parameter: `long`,
`size_t` and `ptrdiff_t` have 32 or 64 bits independently.

## Model

| member | source | states |
|---|---|---|
| Printer.Vsnprintf | src/tools/printf.c:279-624 | for every format, argument list, buffer and size the state machine returns, consumes, stores and leaves in the buffer what the grammar's meaning says; a null format returns 0, a null buffer is allowed, nothing is written for size 0 |
| Printer.Run | src/tools/printf.c:316-613 | the loop terminates, never reads past the format's NUL, and from any state keeps the outcome still to come |
| Printer.DirectiveCase | src/tools/printf.c:325-443 | each state that only reads keeps the outcome to come, and either reads a character or moves to a later state |
| Printer.FlagsCase | src/tools/printf.c:325-355 | one flag character sets one flag; anything else ends the flags |
| Printer.WidthCase | src/tools/printf.c:356-379 | digits accumulate without leaving int; overflow is found before it happens; a negative `*` is a `-` flag |
| Printer.PrecisionCase | src/tools/printf.c:387-410 | the same for the precision; a negative `*` is no precision |
| Printer.ModCase | src/tools/printf.c:411-443 | none, one or two characters are read, never beyond the NUL, and name the modifier |
| Printer.PrintingCase | src/tools/printf.c:318-612 | the two states that print read one character and keep the outcome to come |
| Printer.DoConversion | src/tools/printf.c:444-607 | prints the conversion's text, consumes its argument if it takes one, stores the count for `n` |
| Printer.PutUnsigned | src/tools/printf.c:478-522 | the fall-through cases print in base 8 for `o`, 10 for `u` and 16 for `x` and `X`, without a sign, in upper case for `X` |
| Printer.PutPointer | src/tools/printf.c:532-558 | `(nil)` in its field, or the address in hexadecimal with prefix |
| Printer.NothingLeft | src/tools/printf.c:316-316 | a format that breaks off inside a directive prints nothing more |
| Printer.ModifierStep | src/tools/printf.c:411-443 | the modifier switch and the longest-match modifier of the grammar are the same |
| Resumption.PercentStep | src/tools/printf.c:318-326 | running the states one by one is evaluating the parsed specification |
| Resumption.FlagStep | src/tools/printf.c:325-355 | a flag read joins the flags still to come |
| Resumption.WidthDigitStep | src/tools/printf.c:357-364 | a digit either overflows now exactly when the whole number would, or is accumulated |
| Resumption.PrecisionDigitStep | src/tools/printf.c:390-397 | the same for the precision |
| Resumption.AccumulateIsValue | src/tools/printf.c:363-363 | `10 * n + d` from the left gives the number the digits denote |
| FormatGrammar.ShowParse | src/tools/printf.c:316-613 | writing out the reading of any string gives the string back, and the reading is well formed |
| FormatGrammar.ParseShow | src/tools/printf.c:316-613 | a well-formed format is the only reading of its text |
| FormatLaws.PrintsAsWritten | src/tools/printf.c:316-613 | any text put together from well-formed parts prints as those parts say |
| FormatLaws.Concatenation | src/tools/printf.c:608-611 | printing two formats in a row is printing each, the arguments split between them: no directive leaves anything behind |
| FormatLaws.EarlierTextIsKept | src/tools/printf.c:297-302 | neither text nor arguments depend on what was printed before |
| FormatLaws.OverflowIsExact | src/tools/printf.c:614-622 | overflow is reported if and only if some width or precision is written with a number above INT_MAX |
| FormatLaws.BufferReadsBack | src/tools/printf.c:614-618 | read as a C string the buffer is the first min(len, size - 1) characters; the cells after the NUL are unchanged |
| FormatLaws.NormalField | src/tools/printf.c:676-684 | `-` and a precision cancel `0`, `+` cancels the blank |
| FormatLaws.CancelledFlags | src/tools/printf.c:724-734 | flags that differ only in cancelled ones print the same in every integer directive |
| FormatLaws.FlagOrder | src/tools/printf.c:325-355 | permuting or repeating flag characters never changes the meaning |
| FormatLaws.NegativeStarWidth | src/tools/printf.c:366-376 | `%*d` with -w does, in any format, all that `%-*d` with w does, when the arguments after it are the same |
| FormatLaws.SameArguments | src/tools/printf.c:316-613 | only the arguments still to come matter to the rest of a format |
| FormatLaws.ReturnIsLength | src/tools/printf.c:620-623 | for every format string and arguments the length of the text is returned if and only if no width or precision is written with a number above INT_MAX and the length is below INT_MAX |
| Formatters.OutBuffer.constructor | src/tools/printf.c:304-314 | a null buffer has size 0 whatever was passed |
| Formatters.OutBuffer.OutChar | src/tools/printf.c:267-271 | one character more is output, and kept if there is room for the NUL |
| Formatters.OutBuffer.Terminate | src/tools/printf.c:614-618 | a NUL after what was kept; every other cell as it was |
| Formatters.OutBuffer.Pad | src/tools/printf.c:735-738 | the padding loops output a character max(n, 0) times |
| Formatters.Convert | src/tools/printf.c:775-788 | the reversed digits are the canonical numeral, cut only by the size |
| Formatters.BoundedLength | src/tools/printf.c:636-639 | for any array the loop ends inside it if and only if there is a NUL or a cell at the precision; it then ends at the end of the string under the precision, which is the last cell it reads |
| Formatters.ReadLeavesArray | src/tools/printf.c:637-638 | of the arrays C99 admits the loop leaves exactly those of just `precision` cells without a NUL; two cells and precision 2 are one |
| Formatters.PutClipped | src/tools/printf.c:650-653 | outputs the string under the precision |
| Formatters.FmtStr | src/tools/printf.c:626-658 | outputs the padded, clipped string; a null pointer is the empty string |
| Formatters.SignOf | src/tools/printf.c:674-684 | magnitude below 2^64 and sign character |
| Formatters.Alternate | src/tools/printf.c:689-707 | `#` raises an octal precision or adds the hexadecimal prefix |
| Formatters.PadLengths | src/tools/printf.c:712-734 | the pad lengths are those of the laid-out field |
| Formatters.PutDigits | src/tools/printf.c:749-754 | the digit loop prints the digits with commas in groups of three |
| Formatters.PrintSep | src/tools/printf.c:762-766 | outputs a comma |
| Formatters.PutField | src/tools/printf.c:735-758 | blanks, sign, prefix, zeros, digits, blanks, in this order |
| Formatters.FmtInt | src/tools/printf.c:660-759 | for every value, base, width, precision and flag set outputs the rendered field |
| Numerals.NumeralDigits | src/tools/printf.c:775-788 | only digits, and no leading zero except for 0 |
| Numerals.NumeralDenotes | src/tools/printf.c:775-788 | the digits denote the value in the base |
| Numerals.NumeralLength | src/tools/printf.c:775-788 | at most n digits if and only if the value is below base^n |
| Numerals.GroupedLength | src/tools/printf.c:768-773 | the separators announced are floor((digits - 1) / 3) and are those printed |
| Numerals.GroupedShape | src/tools/printf.c:749-754 | commas stand exactly at every fourth place from the right |
| Numerals.StripGrouped | src/tools/printf.c:749-754 | deleting the commas gives the digits back in order |
| Numerals.GroupedFromLeft | src/tools/printf.c:751-753 | the comma rule of the loop, `pos % 3 == 0`, makes groups counted from the right |
| IntegerText.RoundTrip | src/tools/printf.c:660-759 | dropping blanks, commas, sign and prefix and reading the numeral gives the value back, modulo 2^64 for unsigned conversions, whatever the width, precision and flags |
| IntegerText.FieldSize | src/tools/printf.c:709-722 | the field has the size asked for if and only if no separators are printed into an already widened numeral; otherwise it is too short |
| IntegerText.StringField | src/tools/printf.c:641-658 | exactly max(width, min(precision, length)) characters, the text flush to the side `-` selects, blanks elsewhere |
| IntRange.BufferSuffices | src/tools/printf.c:216-224 | 43 cells hold every numeral below 2^128, and the octal one of 2^128 - 1 fills them |
| IntRange.DigitsOf64 | src/tools/printf.c:775-788 | at most 22, 20 or 16 digits for 64-bit values |
| IntRange.LayoutRange | src/tools/printf.c:709-737 | no int expression overflows if and only if the printed part exceeds the width by at most INT_MAX + 1 |
| IntRange.SafePrecision | src/tools/printf.c:709-737 | every precision up to INT_MAX - 6 is safe; INT_MAX - 5 is not |
| IntRange.StringRange | src/tools/printf.c:630-645 | `strln` and `padlen` of `fmtstr` stay in int if and only if the string under the precision has at most INT_MAX characters; a precision always sees to that |
| Conformance.IntMeetsC99 | src/tools/printf.c:709-717 | for all flags the field is the whole text C99 and SUSv2 ask for, grouped digits included, if and only if not both value and precision are 0 with no octal `#`, and no separators are taken off the zeros of an already widened numeral |
| Conformance.C99RoundTrip | src/tools/printf.c:660-759 | the field asked for reads back as the value, so the field of another value never meets it |
| Conformance.OctalZero | src/tools/printf.c:698-717 | the zero `#o` asks for is there if and only if the separators have not used up the zero padding |
| FormatConformance.FetchIsExact | src/tools/printf.c:449-518 | the value fetched is C99's, for all widths of `long`, `size_t` and `ptrdiff_t`, if and only if it is not one widened the wrong way or cut |
| FormatConformance.IntegerMeetsC99 | src/tools/printf.c:446-522 | an integer directive prints the text asked for if and only if none of its three departures occurs |
| AskedText.IntegerDirective | src/tools/printf.c:325-522 | every format that is one integer directive, for every written flag, width, precision, modifier and letter: the arguments it takes, and its text is the one written out in characters, bases and numbers of bits if and only if it does not depart |
| AskedText.DirectiveIsRead | src/tools/printf.c:325-443 | what is written as flags, width, `.` precision, modifier and conversion letter is read as that |
| AskedText.EvaluatedIsAsked | src/tools/printf.c:325-410 | each flag character stands for itself; a `*` is a signed 32-bit argument, negative for `-` and the width or for no precision |
| AskedText.IntegerIsAsked | src/tools/printf.c:446-522 | the text C99 asks of an integer is the one in letters: sign, prefix, zeros, digits, groups and padding |
| AskedText.IntegerReadsBack | src/tools/printf.c:446-522 | the printed text reads back in base 16 for `x` and `X`, 8 for `o`, 10 for `u`, modulo 2^64, and with its sign in base 10 for `d` and `i` |
| AskedText.DigitCase | src/tools/printf.c:779-779 | digits above 9 are `A` to `F` in upper case and `a` to `f` in lower case |
| AskedText.CharacterConversions | src/tools/printf.c:523-526 | `%c` prints the low byte of its argument, `%%` a percent sign, and anything that is no conversion nothing |
| AskedText.StringConversion | src/tools/printf.c:527-531 | `%s` prints the string, or nothing for a null pointer, as far as the precision goes, in blanks |
| AskedText.PointerConversion | src/tools/printf.c:532-558 | `%p` prints `(nil)` in blanks, or the address as `%#lx` does |
| AskedText.CountConversion | src/tools/printf.c:559-600 | `%n` stores the low bits of the length so far, as many as the modifier says |
| AskedText.TextEnds | src/tools/printf.c:650-653 | the string ends before its first zero character |
| FormatConformance.CountMeetsC99 | src/tools/printf.c:559-600 | `%n` stores into C99's object if and only if it is not `%tn` with different widths of `long` and `ptrdiff_t` |
| FormatConformance.CharacterMeetsC99 | src/tools/printf.c:523-526 | `%c` without `l` prints C99's field if and only if the width is at most 1 |
| FormatConformance.WideMeetsC99 | src/tools/printf.c:523-531 | `%lc` and `%ls` print C99's text if and only if the platform's characters for the argument are the byte or bytes printed, or, where the width has room for both, the same with blanks on the padded side |
| FormatConformance.DirectiveMeetsC99 | src/tools/printf.c:444-607 | any directive, floating-point and wide ones included, has C99's text, arguments and counts if and only if it does not depart; departing is a condition on specification, argument and platform |
| FormatConformance.FormatMeetsC99 | src/tools/printf.c:279-624 | every format none of whose directives departs prints, consumes and stores what C99 and SUSv2 say |
| Departures.MeetsC99Exactly | src/tools/printf.c:279-624 | a format all of whose departures are steady, or that has at most one, means what C99 says, in text, arguments and counts, if and only if none of the directives it performs departs: no such departures cancel |
| Departures.FallsBehind | src/tools/printf.c:444-607 | from the first departure to the end of the format the printer has consumed fewer arguments, stored other counts, or printed a text that is parted from C99's |
| Departures.OnceDiffers | src/tools/printf.c:444-607 | a single departure, of whatever kind, is not made up for by directives that do not depart |
| Departures.PartedAppend | src/tools/printf.c:444-607 | texts that clash apart from blanks, or of which the printer's has more characters apart from blanks, commas and signs, or fewer blanks alone, are never brought together by what follows, be it the same or another steady departure |
| Departures.IntegerDeparted | src/tools/printf.c:446-522 | the two texts of every steady departure of an integer, with a value widened the wrong way or a zero too many, with or without `'`, are such that this holds |
| Departures.StaysShort | src/tools/printf.c:605-606 | after a floating-point directive the arguments never meet again |
| DepartureExamples.ZeroIsPrinted | src/tools/printf.c:782-785 | `%.0d` with 0 |
| DepartureExamples.SeparatorTakesZero | src/tools/printf.c:709-717 | `%'.6d` with 1234 is a character shorter than its parts |
| DepartureExamples.SeparatorTakesOctalZero | src/tools/printf.c:698-717 | `%'#o` with 4096 has no leading zero |
| DepartureExamples.WidthIsIgnored | src/tools/printf.c:523-526 | `%3c` prints no blanks |
| DepartureExamples.SizeIsUnsigned | src/tools/printf.c:462-464 | `%zd` with -1 prints 4294967295 where `size_t` has 32 bits |
| DepartureExamples.PtrdiffIsSigned | src/tools/printf.c:513-515 | `%tu` with 4294967295 prints 18446744073709551615 where `long` has 32 bits |
| DepartureExamples.CountIsTooWide | src/tools/printf.c:592-595 | `%tn` stores eight bytes where `ptrdiff_t` has four |
| DepartureExamples.FloatingIsSkipped | src/tools/printf.c:605-606 | `%f` prints nothing and consumes nothing |
| DepartureExamples.LongDoubleIsALetter | src/tools/printf.c:605-606 | `%Lf` prints its last letter and consumes nothing |
| DepartureExamples.WideCharacterIsCut | src/tools/printf.c:523-526 | `%lc` prints the low byte |
| DepartureExamples.WideStringIsBytes | src/tools/printf.c:527-531 | `%ls` prints nothing of a wide string whose first byte is 0 |
| DepartureExamples.FullLengthFails | src/tools/printf.c:620-622 | `%2147483647d` returns -1 for a text of INT_MAX characters |
| Cancellations.SeparatorsCancel | src/tools/printf.c:709-717 | `%.0d%'.6d` with 0 and 1234 departs twice and prints what is asked for |
| Cancellations.WideCharactersCancel | src/tools/printf.c:523-526 | so does `%lc%lc` where wide characters print as two characters and none |
| Cancellations.CutNumbersCancel | src/tools/printf.c:189-205 | so do two cut `%td` and five `%.0d` where only `ptrdiff_t` has 64 bits |
| UserAgent.UserAgentText | src/prx.c:166-168 | the user-agent format prints `PatchworkLBP`, the game digit, the version and the key suffix, for every argument |
| Memory.WordRoundTrip | src/hooks/patches.c:70-70 | a word survives its four big-endian bytes |
| Memory.BigEndian | src/hooks/patches.c:70-70 | the byte at the lowest address counts most |
| Patches.GameMemory.ApplyGamePatches | src/hooks/patches.c:65-82 | the loop leaves the memory the table's fold gives; `EntryDone` and `EndsAtZero` say what that is entry by entry |
| Patches.EntryDone | src/hooks/patches.c:70-79 | an indirect entry copies from where its variable points and is skipped when that is null; a direct entry copies the variable itself |
| Patches.EndsAtZero | src/hooks/patches.c:67-68 | an entry at offset 0 ends the table, whatever follows |
| Patches.LastWriterWins | src/hooks/patches.c:65-82 | each byte is the one the last live entry that covers it brings; others are unchanged |
| Patches.UntouchedKept | src/hooks/patches.c:65-82 | a range no entry covers is unchanged, whatever the sources |
| Patches.ApplyingTwice | src/hooks/patches.c:65-82 | with sources outside the targets, applying twice is applying once |
| Patches.AnyOrder | src/hooks/patches.c:65-82 | two tables with the same live entries leave the same memory, whatever their order, when no two different live entries with a source overlap and no source lies in a target |
| Patches.TargetFilled | src/hooks/patches.c:65-82 | in such a table the target of each live entry with a source holds the source's bytes |
| Tables.ShippedTables | src/hooks/patches.c:12-58 | for all four tables and a module above the game: targets filled, the rest unchanged, idempotent |
| Tables.ShippedLayout | src/hooks/patches.c:12-58 | no two targets of a table overlap, none is at 0, all lie below 0x1000000 |
| Tables.LBP1Filled | src/hooks/patches.c:12-21 | address by address, with the length and the variable of each: what stands there after the LBP1 table |
| Tables.LBP2Filled | src/hooks/patches.c:23-32 | the same for LBP2 |
| Tables.LBP3Filled | src/hooks/patches.c:34-45 | the same for LBP3 |
| Tables.LBP3JPFilled | src/hooks/patches.c:47-58 | the same for the Japanese LBP3 |
| PowerPC.DecodeEncode | src/hooks/script-block.s:1-57 | decoding the word of any encodable instruction gives the instruction |
| ProgramWords.LBP1HookWords | src/hooks/script-block.s:3-17 | the machine words of the hook, as an assembler makes them |
| ProgramWords.LBP2HookWords | src/hooks/script-block.s:19-30 | the same for LBP2 |
| ProgramWords.LBP3HookWords | src/hooks/script-block.s:32-43 | the same for LBP3 |
| ProgramWords.LBP3JPHookWords | src/hooks/script-block.s:46-57 | the same for the Japanese LBP3 |
| ProgramWords.LBP1HeadWords | src/hooks/forcejoin-patch.s:8-18 | the machine words of the first ten instructions |
| ProgramWords.LBP1AnswerWords | src/hooks/forcejoin-patch.s:20-25 | and of the rest |
| ProgramWords.LBP2HeadWords | src/hooks/forcejoin-patch.s:33-43 | the same for LBP2 |
| ProgramWords.LBP2AnswerWords | src/hooks/forcejoin-patch.s:45-49 | the invitation check |
| ProgramWords.LBP2DealingWords | src/hooks/forcejoin-patch.s:54-64 | the first call and its check |
| ProgramWords.LBP2ForwardingWords | src/hooks/forcejoin-patch.s:65-69 | the second call |
| ProgramWords.LBP3SearchWords | src/hooks/forcejoin-patch.s:76-95 | the machine words of the search |
| ProgramWords.LBP3DealWords | src/hooks/forcejoin-patch.s:98-109 | and of the call and its checks |
| ProgramWords.LBP3JPSearchWords | src/hooks/forcejoin-patch.s:116-135 | the same for the Japanese LBP3 |
| ProgramWords.LBP3JPDealWords | src/hooks/forcejoin-patch.s:138-149 | the same for the Japanese LBP3 |
| ProgramWords.NotificationWords | src/prx.c:137-143 | the words 0x38000000 and 0x38600000 are `li r0, 0` and `li r3, 0` |
| ProgramWords.BranchWords | src/hooks/hooks.c:5-8 | the words of a branch to a hook and back |
| Hooks.RelativeBranchDecodes | src/hooks/hooks.c:5-8 | for all addresses the word is the I-form branch of their distance modulo 2^26 |
| Hooks.RelativeBranchReaches | src/hooks/hooks.c:5-8 | for aligned addresses it goes to the destination if and only if the distance is in [-2^25, 2^25) |
| Machine.LeavesOnce | src/hooks/script-block.s:1-57 | a run leaves a program in one way only |
| Machine.CalleeIsFree | src/hooks/script-block.s:14-14 | a called routine may leave anything in the volatile registers and in memory, and nothing else |
| Machine.AddressWraps | src/hooks/script-block.s:6-7 | effective addresses are taken modulo 2^64 |
| Machine.ClearToWord | src/hooks/script-block.s:13-13 | `clrldi` by 32 keeps the low word, from the bitwise rotate and mask |
| Machine.ClearToByte | src/hooks/forcejoin-patch.s:8-8 | `rlwinm` with 0, 24, 31 keeps the low byte |
| Machine.OrLow | src/hooks/forcejoin-patch.s:13-13 | `ori` onto a clear low half adds |
| ScriptBlock.LBP1BlocksScripts | src/hooks/script-block.s:1-17 | every run leaves at 0x81B40 exactly for a resource of type 0xB; otherwise AddToCSRQueue is called once with the low word of r25 and the run goes on at 0x81BCC |
| ScriptBlock.LBP2BlocksScripts | src/hooks/script-block.s:19-30 | every run leaves at 0x153D3C exactly when the game's check says so or the type is 0xB, else at 0x153D78 |
| ScriptBlock.LBP3BlocksScripts | src/hooks/script-block.s:32-57 | the same for both versions of LBP3; no call, and only r3 and two condition fields change |
| ForceJoin.LBP1JoinIsSafe | src/hooks/forcejoin-patch.s:6-27 | every run accepts if and only if the joiner is local or has a friend entry with a non-zero invitation word; a local joiner is not looked up, any other once |
| ForceJoin.LBP2JoinIsSafe | src/hooks/forcejoin-patch.s:31-70 | every run accepts if and only if the joiner is local or has a friend entry whose invitation word is above 0 and below 0x80000000; any other request is dealt with once, under its own source, and forwarded exactly when that returns a zero byte |
| ForceJoin.LBP3JoinIsSafe | src/hooks/forcejoin-patch.s:74-110 | the request is dealt with once, with skip_checks = 1 if and only if the joiner is local or invited |
| ForceJoin.SearchesCalled | src/hooks/forcejoin-patch.s:12-17 | the routine, the manager's address, the source and null of each version's search |
| ForceJoin.LBP3Addresses | src/hooks/forcejoin-patch.s:99-110 | the routine the request is dealt with in, and where the two LBP3 programs leave |
| JoinVersions.StepTogether | src/hooks/forcejoin-patch.s:74-150 | one instruction of LBP3 and of LBP3JP keeps the two states equal up to the renamed addresses |
| JoinVersions.RunTogether | src/hooks/forcejoin-patch.s:74-150 | for all routines that correspond and states that start alike, after any number of instructions both versions are in lockstep or both have left |
| JoinVersions.LeaveTogether | src/hooks/forcejoin-patch.s:74-150 | when one version leaves the other leaves, at the same place past its base |
| JoinVersions.ShippedVersionsLeaveTogether | src/hooks/forcejoin-patch.s:74-150 | the same for the two shipped programs |
| EndToEnd.HookInstalls | src/prx.c:132-150 | after the table the origin decodes to the branch to the hook, and the hook's instructions are in place |
| EndToEnd.JoinInstalls | src/hooks/patches.c:65-82 | after the table the join program's instructions are in place |
| EndToEnd.AboveIsReady | src/prx.c:132-150 | a module above the game, with a hook in branch range, meets the conditions of the end-to-end theorems |
| EndToEnd.LBP1PatchedBlocksScripts | src/hooks/patches.c:12-21 | in the patched game every run from the resource check leaves, at 0x81B40 exactly for type 0xB, and otherwise makes the one call and goes on at 0x81BCC |
| EndToEnd.LBP2PatchedBlocksScripts | src/hooks/patches.c:23-32 | the same for LBP2 with the retained check |
| EndToEnd.LBP3PatchedBlocksScripts | src/hooks/patches.c:34-58 | the same for both versions of LBP3, at the bail addresses 0x1CFD10 and 0x1CFBAC |
| EndToEnd.LBP1PatchedJoins | src/hooks/patches.c:20-20 | in the patched game every join run leaves, accepts if and only if local or invited, and looks up a joiner who is not local once |
| EndToEnd.LBP2PatchedJoins | src/hooks/patches.c:31-31 | the same for LBP2, with all calls of the game's own handling of other requests |
| EndToEnd.LBP3PatchedJoins | src/hooks/patches.c:44-57 | the same for both versions of LBP3, as skip_checks |
| LoadedModule.ShippedGamesCanBeReady | src/prx.c:132-150 | in each game some memory meets all hypotheses of the end-to-end theorems at once, and the exits lie outside the hook |
| PatchGenerator.GetHook | tools/patch_generator/hooks.go:11-33 | returns the shortest run of whole words that holds exactly two matching words, the last of them final; fails exactly when the section ends before there are two |
| PatchGenerator.BaMaskMeans | tools/patch_generator/hooks.go:9-25 | over every instruction form: each `ba` matches, no `bla`, `b` or `bl` does, and of the others only rotates by 32 or more |
| PatchGenerator.HookExtracted | tools/patch_generator/hooks.go:11-33 | from assembled code whose last instruction is the second match, exactly that code is returned, whatever follows it |
| PatchGenerator.ShippedHooksEnd | src/hooks/script-block.s:3-57 | all four script hooks are such code |
| EmulatorPatches.MakeOverwritePatch | tools/patch_generator/rpcs3_patch/patches.go:70-81 | fails exactly for a length that is no multiple of 4; otherwise the entries, one a word at consecutive addresses, each value `0x` and eight digits |
| EmulatorPatches.MakeCodePatch | tools/patch_generator/rpcs3_patch/patches.go:56-68 | fails for the same lengths; otherwise the word count and the words |
| EmulatorPatches.EntryReads | tools/patch_generator/rpcs3_patch/patches.go:77-77 | an entry's value is `0x` and eight digits in lower case, and reads as the four bytes it was made from |
| EmulatorPatches.OneWord | tools/patch_generator/rpcs3_patch/patches.go:56-81 | the entries for the patch 38 00 00 00, character by character |
| EmulatorPatches.TwoWords | tools/patch_generator/rpcs3_patch/patches.go:77-77 | addresses wrap at 2^32 |
| EmulatorPatches.OverwriteAgrees | tools/patch_generator/rpcs3_patch/patches.go:70-81 | the entries, run in order as big-endian word writes, write the patch at the offset |
| EmulatorPatches.EmulatorAgrees | tools/patch_generator/rpcs3_patch/helpers.go:47-47 | the entries of a whole table up to a zero offset, those without a source skipped, leave in order the memory `ApplyGamePatches` leaves |
| EmulatorPatches.CodeRebuilds | tools/patch_generator/rpcs3_patch/patches.go:56-68 | the decimal count is the number of words, and the words rebuild exactly the patch |

## Left out

- Printer.Vsnprintf: the running length is unbounded, so the output is assumed to fit in `size_t`; `%s` arguments are
  NUL-terminated here, although `Formatters.FmtStr` is proved for any string that is readable one cell past its precision
  (src/tools/printf.c:637 tests that cell first).
- Printer.DoConversion: the stores of `%n` are returned as a list in order, so a count stored into the format, the
  buffer or a later string argument is not modelled; arguments past those passed are arbitrary words.
- Printer.WidthCase: negating a `*` width of INT_MIN, which C leaves undefined, gives 2^31.
- Formatters.SignOf: negating the most negative value, which C leaves undefined, gives 2^63, as wrapping would.
- Formatters.PadLengths: computes on unbounded integers, as do `BoundedLength` and `FmtStr`; `IntRange.LayoutRange` and
  `IntRange.StringRange` say exactly when C's `int` agrees.
- FormatConformance.FormatMeetsC99: a directive C99 leaves undefined is taken to mean what the printer does; a wide
  character that cannot be converted, for which C99 asks for a failure, is not modelled.
- Departures.MeetsC99Exactly: for formats with two or more departures one of which is not steady only the direction of
  `FormatMeetsC99` is stated; whether they cancel depends on the arguments.
- Patches.GameMemory.Copy: source and target that overlap are read before they are written, where `memcpy` is undefined.
- EndToEnd.LBP1PatchedBlocksScripts: instructions are fetched from the memory at the start of the run, so a routine that
  rewrites the code is not modelled; nor is the address in the link register, or that the instruction cache is flushed.
- Machine.CallOut: a called routine is assumed to return, and to keep r1, r2, r13 to r31 and condition fields 2 to 4;
  of the fixed-point exception register only the carry and summary-overflow bits are modelled.
- EmulatorPatches.EmulatorAgrees: for entries of whole words inside the 32-bit address space; the LBP1 table has one of a
  single byte, which the tool refuses. What the emulator does for `calloc` is not modelled.
- The offsets in lbpdefs/, some of which differ from src/offsets.h: agreement is stated for arbitrary offsets.
- `LogLn` and `PrintLn` inside `RelativeBranch` and `ApplyGamePatches`: output only.
- `Snprintf`, `GetLBPGameNumber`, `TrimEnd`, `ReplaceNext`: one line each or finite.
- HTTP, update, configuration, dialogs, module loading, memory system calls: foreign calls.
- YAML output, ELF symbol lookup, SHA-256, the random join key: library calls.
- The other variants commented out in src/tools/printf.c.
