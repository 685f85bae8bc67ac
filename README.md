# Zoo catalog parser

This project models the record parser of the zoo monitoring system (`FileReader.java`) and proves its behaviour.

The catalogs are plain text files, one for animals and one for habitats. A record starts with a header line such as `Details on lions`, and its detail lines follow until an empty line. A detail line starting with `*` is a warning, for example `*Health: Needs checkup*`. The program shows each warning in a dialog before it prints the line.

The model works on a catalog as the sequence of its lines. It does not print or open dialogs; it returns those as values:

- `printDetails` returns a `Report`. A `Report` is the printed lines, the warning dialogs in order as `Alert(title, message)` pairs, and an `Outcome`. The outcome is one of three:
  - `Found(block)`: the detail block.
  - `NotFound`.
  - `MalformedWarning(line)`: the warning line on which `displayWarning` throws.
- `printSubDetails` returns a `SubDetails`. A `SubDetails` is the detail lines printed, the alerts raised, and `fault`: the malformed warning line it stops at, or `None`. `printDetails` turns it into the `Outcome`.
- `getAvailableList` and `extractName` are methods with loops. They are proved against the specification functions `Positions`, `ExtractedName` and `Tokens`.
- `printDetails` and `printSubDetails` are methods with loops. They are proved against the recursive reference functions `LookupFrom` and `SubDetailsFrom`, wrapped by `Details`. Lemmas then fix exactly which lines those functions select.
- `formatInput`, `capitalize`, `getFilePath` and the parse inside `displayWarning` are functions. `capitalize` has the same body as `formatInput`.

Modules:

- `Wrappers`: `Option`.
- `Seqs`: the linear searches `FirstIndex` and `Positions`.
- `JavaString`: `startsWith`, `endsWith`, `trim`, `replace`, `indexOf`, `toUpperCase` and `toLowerCase`, following Java.
- `Scanning`: how `java.util.Scanner` splits a line into tokens, using `Character.isWhitespace`.
- `FileReader`: the parser itself.

On these points the code may surprise a reader of the catalog format. The model follows the code:

- A block ends at a line that is exactly empty. A line of spaces does not end it.
- The lookup tests the suffix of every line, not only of header lines.
- A header is recognised by the prefix `Details` of the line, not by its first token. So `DetailsOf lions` is a header.
- For animals, the name loses its last character whatever that character is.
- The message begins two characters after the colon, whatever the character after the colon is.
- A warning line with no colon, or with nothing after the colon, makes `displayWarning` throw a `StringIndexOutOfBoundsException`. Nothing between `displayWarning` and the program's `main` catches it, so the program ends there. The model reports this as the outcome `MalformedWarning`, which marks that end and is not a recoverable result. The lines printed and dialogs shown before that line are kept. The line itself is not printed.
- A missing catalog resource makes `new Scanner(null)` throw. It does not degrade to an empty result. This path is not part of this model (see "Left out").

## Model

| member | source | states |
|---|---|---|
| FileReader.GetFilePath | FileReader.java:157-159 | The animals path exactly for kind "animals", the habitats path for every other kind |
| FileReader.FormatInput | FileReader.java:166-168 | The result has the input's length, is in proper case (first character not lower-case, the rest not upper-case), and equals the input up to case. Requires a non-empty input, as `substring(0, 1)` does |
| FileReader.ProperCaseUnique | FileReader.java:166-168 | Any proper-case string equal to the input up to case is the normalised query |
| FileReader.FormatInputIdempotent | FileReader.java:166-168 | Normalising twice gives the same as normalising once |
| FileReader.FormatInputIgnoresCase | FileReader.java:166-168 | Two queries normalise to the same string if and only if they differ only in case |
| FileReader.NameFromWord | FileReader.java:117 | For animals, the name is the token minus its last character (one shorter). For any other kind, it is the token itself |
| FileReader.ExtractedName | FileReader.java:112-121 | Reference definition of `extractName`: the name from the first token that is neither "Details" nor "on", or "". No ensures of its own; ExtractedNameAt and ExtractedNameNone characterise it |
| FileReader.ExtractedNameAt | FileReader.java:114-119 | The first token that is neither "Details" nor "on" gives the name |
| FileReader.ExtractedNameNone | FileReader.java:113-121 | A line with no such token gives the empty name |
| FileReader.ExtractName | FileReader.java:112-122 | The token loop returns the name derived from the first token that is not skipped, or "" |
| FileReader.GetAvailableList | FileReader.java:48-69 | One entry per line starting with "Details", in file order; entry m is the name extracted from the m-th such line |
| FileReader.DetailsOnName | FileReader.java:112-121 | A header "Details on <name> ..." lists the name its third token gives |
| FileReader.DetailsOnNameSpaced | FileReader.java:112-121 | A header "Details", white space, "on", white space, then `<name>` followed by white space or the end of the line, lists the name derived from `<name>`. This holds for any runs of white space, such as tabs or several spaces |
| FileReader.DetailsPrefixName | FileReader.java:58-60 | A line whose first token merely begins with "Details" is a header and lists the name that token gives (for animals, the token minus its last character) |
| FileReader.AnimalNameExample | FileReader.java:117 | "Details on lions" lists "lion" in the animals catalog |
| FileReader.HabitatNameExample | FileReader.java:117 | "Details on penguin habitat" lists "penguin" in the habitats catalog |
| FileReader.HeaderPrefixExample | FileReader.java:58 | "DetailsOf lions" is a header listing "DetailsOf" in the habitats catalog |
| FileReader.WarningText | FileReader.java:146 | The warning line with every "*" turned into a space, then trimmed. No ensures of its own; ReplaceEach, TrimKeepsInfix and TrimPadded characterise it |
| FileReader.ParseWarning | FileReader.java:146-148 | The parse of `displayWarning`: title "Warning! " + the text before the first colon, message from two characters after it, None where `substring` throws. No ensures of its own; WarningDecomposes and ParseWarningComposes characterise it in both directions |
| FileReader.WarningDecomposes | FileReader.java:145-149 | A text of the form category (with no colon), colon, one character, message, yields the title "Warning! " + category and that message |
| FileReader.ParseWarningComposes | FileReader.java:145-149 | Parsing fails if and only if no colon in the trimmed text has a character after it. Every success has the decomposed shape above |
| FileReader.StarredWarning | FileReader.java:146-149 | Stars around "category: message" are replaced and trimmed away, and the dialog shows exactly the category and message |
| FileReader.HealthWarning | FileReader.java:145-149 | "*Health: Needs checkup*" gives the title "Warning! Health" and the message "Needs checkup" |
| FileReader.AlertOf | FileReader.java:134-135 | One alert for a line starting with "*", none for another line. No ensures of its own; it is the single-line case of WarningsInOrder |
| FileReader.Warnings | FileReader.java:134-137 | The alerts a run of detail lines raises. No ensures of its own; WarningsInOrder, WarningsCons and NoWarningLinesNoAlerts characterise it |
| FileReader.WarningsCons | FileReader.java:134-137 | A line followed by a run raises its own alert first, then the run's alerts |
| FileReader.WarningsInOrder | FileReader.java:134-137 | One alert per line starting with "*", in line order; alert m is the parse of the m-th such line |
| FileReader.NoWarningLinesNoAlerts | FileReader.java:134-137 | A run with no line starting with "*" raises no alert |
| FileReader.SubDetailsFrom | FileReader.java:128-139 | Reference definition of `printSubDetails` from a given line. No ensures of its own; PrintSubDetails is proved equal to it, and SubDetailsRunsTo and SubDetailsStopsAt fix which lines it prints |
| FileReader.SubDetailsRunsTo | FileReader.java:128-138 | With no malformed warning before the first exactly empty line (or the end of the file), every line up to it is printed verbatim, with its alerts |
| FileReader.SubDetailsStopsAt | FileReader.java:129-137 | A malformed warning line inside the block stops it: the lines before it are printed, and their alerts raised |
| FileReader.PrintSubDetails | FileReader.java:128-139 | The loop returns the reference behaviour of `printSubDetails` from the given line |
| FileReader.Heading | FileReader.java:83 | The heading "<name> <Type> Details:", with the type through `capitalize`. No ensures of its own; it is the first output line in PrintDetails's contract |
| FileReader.NotFoundMessage | FileReader.java:98 | "Error: <name> not found in system.". No ensures of its own; LookupNotFound states when it is printed |
| FileReader.LookupFrom | FileReader.java:87-99 | Reference definition of the search loop of `printDetails` from a given line. No ensures of its own; LookupSkips, LookupNotFound, LookupFound and LookupStopsAtMalformed characterise it |
| FileReader.Details | FileReader.java:76-104 | Reference definition of `printDetails`: the heading, a blank line, then the lookup. No ensures of its own; PrintDetails is proved equal to it, and DetailsIgnoresQueryCase and LionQueriesAgree are stated about it |
| FileReader.PrintDetails | FileReader.java:76-104 | The loop returns the heading, the blank line, and then the lookup of the normalised query |
| FileReader.LookupSkips | FileReader.java:87-95 | Lines that do not end with the name are passed over |
| FileReader.LookupNotFound | FileReader.java:97-99 | Not found exactly when no line ends with the normalised name. It then prints only "Error: <name> not found in system." and raises no alert |
| FileReader.LookupFound | FileReader.java:87-95 | The first line ending with the name, followed by its detail lines up to the first exactly empty line or the end of the file, is printed and is the block. Later matches are ignored |
| FileReader.LookupStopsAtMalformed | FileReader.java:89-92 | When the block holds a malformed warning line, the output up to it is kept and the lookup fails at that line |
| FileReader.DetailsIgnoresQueryCase | FileReader.java:78 | Queries equal up to case produce the same report |
| FileReader.LionQueriesAgree | FileReader.java:78 | "LION", "lion" and "Lion" all normalise to "Lion" and produce the same report |
| Scanning.IsWhitespace | FileReader.java:115 | `Character.isWhitespace`, the default `Scanner` delimiter, with its full character set written out. A predicate without ensures |
| Scanning.WordLength | FileReader.java:115 | The length of the leading run of non-white-space characters, ended by white space or the end of the line |
| Scanning.Tokens | FileReader.java:114-115 | Every token `Scanner.next()` returns is non-empty and free of white space |
| Scanning.TokensOfWordThen | FileReader.java:114-115 | A token followed by white space or the end of the line is read back as one token |
| Scanning.TokensOfJoinWords | FileReader.java:114-115 | Tokens joined with single spaces scan back to exactly those tokens |
| Scanning.TokensSkipBlanks | FileReader.java:114-115 | White space before a line's text yields no token |
| Scanning.TokensOfWordBlanks | FileReader.java:114-115 | A word followed by a non-empty run of white space is the first token, and the text after the run supplies the rest |
| Scanning.TokensOfThreeWords | FileReader.java:114-115 | Three words separated by runs of white space, then white space or nothing, scan as those three words followed by the rest's tokens |
| JavaString.StartsWith | FileReader.java:58 | `String.startsWith`: the prefix is the string's leading part. A predicate without ensures; it is also the test at line 134 |
| JavaString.EndsWith | FileReader.java:89 | `String.endsWith`: the suffix is the string's trailing part. A predicate without ensures |
| JavaString.ToUpperCase | FileReader.java:167 | Same length, no lower-case letter left, and equal to the input up to case |
| JavaString.ToLowerCase | FileReader.java:167 | Same length, no upper-case letter left, and equal to the input up to case |
| JavaString.Replace | FileReader.java:146 | `String.replace(char, char)`. No ensures of its own; ReplaceEach characterises it |
| JavaString.ReplaceEach | FileReader.java:146 | `replace('*', ' ')` keeps the length, turns every star into a space and keeps every other character |
| JavaString.Trim | FileReader.java:146 | `String.trim`, as TrimEnd after TrimStart. No ensures of its own; TrimStartDropsBlanks, TrimEndDropsBlanks, TrimKeepsInfix and TrimPadded characterise it |
| JavaString.TrimStartDropsBlanks | FileReader.java:146 | Only a prefix of characters up to ' ' is removed, and what is left does not start with one |
| JavaString.TrimEndDropsBlanks | FileReader.java:146 | Only a suffix of characters up to ' ' is removed, and what is left does not end with one |
| JavaString.TrimKeepsInfix | FileReader.java:146 | `trim()` is the infix between removed blank characters, and neither starts nor ends with one |
| JavaString.TrimPadded | FileReader.java:146 | Trimming removes any spaces padded around text that starts and ends with a kept character |
| JavaString.IndexOf | FileReader.java:147 | `String.indexOf`, with None for -1. No ensures of its own; IndexOfFirst and IndexOfAfter characterise it |
| JavaString.IndexOfFirst | FileReader.java:147 | `indexOf(":")` finds the first colon, and reports none exactly when there is no colon |
| JavaString.IndexOfAfter | FileReader.java:147 | In `a + ":" + b` with no colon in `a`, the first colon is at position `a`'s length |
| Seqs.FirstIndex | FileReader.java:114-119 | The first index satisfying the predicate, with none earlier; None only when no element satisfies it |
| Seqs.FirstIndexAt | FileReader.java:114-119 | An index that satisfies the predicate, with none earlier, is the one found |
| Seqs.Positions | FileReader.java:56-62 | Exactly the indices satisfying the predicate, strictly increasing |
| Seqs.PositionsEmpty | FileReader.java:56-62 | No indices exactly when no element satisfies the predicate |

## Left out

- `loadConfig` and the `Properties` file (FileReader.java:26-41): configuration I/O. The two catalog paths are a `Config` value the caller supplies.
- Opening the class-path resources and the `Scanner`s, and the `IOException` handlers (FileReader.java:52-53, 64-66, 80-81, 101-103): file I/O. The model takes the lines already read. The `NullPointerException` that a missing resource raises is therefore not modelled.
- Printing to `System.out` and `System.err`: the printed lines are returned instead. The heading `"<name> <Type> Details:"` and the empty line after it are the first two output lines.
- `JOptionPane.showMessageDialog` (FileReader.java:149): a modal UI call. Its title and message are returned instead.
- The order of dialogs relative to printed lines: the alerts and the output are two separate lists. The model keeps each list's own order, but not how the two interleave.
- FileReader.PrintDetails: requires a non-empty kind and query, as do FileReader.Details and FileReader.Heading. On an empty one the source throws `StringIndexOutOfBoundsException` in `formatInput` (FileReader.java:78) or `capitalize` (FileReader.java:83). Its caller passes only the literals "animals" and "habitats" and a `Scanner.next()` token, which is never empty.
- JavaString.ToUpperCase: changes only ASCII letters. Java's locale-sensitive Unicode case mapping is not modelled.
- JavaString.ToLowerCase: changes only ASCII letters, for the same reason.
- Java strings are UTF-16 code units. The model's `char` is a Unicode scalar value, so surrogate pairs are not modelled.
- `ZooMonitoringSystem.java`, the interactive menu that calls this parser, is not part of this model. It is console I/O with no parsing of its own.
