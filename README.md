# Text formats and traversals of the red-black tree driver

The driver program of the multi-language red-black tree (`c/src/main.c`)
builds a tree of int keys and values. It gets the pairs from a CSV file or
from a random generator, and it writes the tree back out in two ways. This
project models the parts of that file that have real contracts:

- **The CSV pair format.** `write_int_pairs` writes one `key,value` line per
  pair. `read_int_pairs` reads such lines back with `fscanf("%d,%d")` and
  `fgetc`. It stops at end of input and returns -1 when anything other than
  a newline follows a pair.
- **Decimal text of ints.** `void_int_to_string` renders an int with
  `sprintf("%d")` into a 50-char buffer. A `%d` directive of `fscanf` reads
  it back. The reading follows section 7.21.6.2 of ISO C11:
  - white space is skipped first;
  - then an optional sign and the longest run of digits are read;
  - a failed directive stores nothing.
- **Node lines.** `write_node` builds `key,value,b\n` or `key,value,r\n` with
  `strcpy`/`strcat`. The buffer it uses is `strlen(key)+strlen(value)+5`
  chars long.
- **The two traversals.**
  - `write_int_tree_inorder` writes a node line per node in key order.
  - `print_tree_values` draws the values sideways: right subtree first, four
    spaces of indent per level, red values between angle brackets.
- **The comparator.** `compare_int` is the three-way comparator the tree is
  built with.

Streams are modelled as the text they hold (reading) or the text written to
them (writing). A tree node is the datatype `NodeDump.Tree`. Ints are
unbounded; the 32-bit range appears only where it matters, in the length
bound of the decimal text.

The modules follow the file's structure:

| module | file | models |
|---|---|---|
| `Options` | options.dfy | the optional value a scan stores |
| `Compare` | compare.dfy | `compare_int` |
| `Decimal` | decimal.dfy | `void_int_to_string` and the `%d` conversion of `fscanf` |
| `CStrings` | cstrings.dfy | the C strings and `strlen`/`strcpy`/`strcat` steps `write_node` uses |
| `Lines` | lines.dfy | text as newline-terminated lines |
| `Pairs` | pairs.dfy | `write_int_pairs`, `read_int_pairs` |
| `NodeDump` | node_dump.dfy | `write_node`, `write_int_tree_inorder`, `print_tree_values` |

A few source operations are imperative. Each is a method with loops, proved
against a specification function:

| method | specification function |
|---|---|
| `read_int_pairs` → `ReadIntPairs` | `ReadPairs` |
| `write_int_pairs` → `WriteIntPairs` | `PairsText` |
| `write_node` → `WriteNode`, over a char array | `NodeText` |
| `print_tree_values` → `PrintTreeValues`, whose indent is a loop | `PrintText` |

`write_int_tree_inorder` is a recursive method with `InorderText` as its
specification; like the source, it calls `WriteNode`. The lemmas state the
promised properties of the specification functions.

## Model

| member | source | states |
|---|---|---|
| `Compare.CompareInt` | c/src/main.c:139-150 | The result is -1 exactly when `left < right` and 1 exactly when `left > right`. Equal keys are excluded, as the assert at line 147 demands. |
| `Compare.CompareAntisymmetric` | c/src/main.c:139-150 | Swapping the arguments negates the answer. |
| `Compare.CompareTransitive` | c/src/main.c:139-150 | The order the comparator induces is transitive. |
| `Decimal.IntToString` | c/src/main.c:111-120 | The `%d` text of `x` is never empty, and it starts with a minus sign exactly when `x < 0`. |
| `Decimal.IntToStringIsDecimal` | c/src/main.c:111-120 | The text of `x` has a minus sign exactly when `x < 0`. After the sign come decimal digits with no leading zero (except for 0). For a 32-bit int it is at most 11 chars, so it fits the 50-char buffer with its NUL. |
| `Decimal.DigitsIsDecimal` | c/src/main.c:114 | The digits of a magnitude are decimal digits without a leading zero, and their value is the magnitude. |
| `Decimal.IntToStringHasNo` | c/src/main.c:114 | The text of an int holds only a sign and digits. It has no NUL (so `strlen`/`strcpy` see all of it), no comma, no newline, no space and no `<`. |
| `Decimal.ScanInt` | c/src/main.c:57 | One `%d` directive skips white space, then takes an optional sign and the longest run of digits. It stores a value only when a digit was read. A sign with no digit after it is still consumed. Where it stops, no digit follows. |
| `Decimal.ScanIntOfDecimal` | c/src/main.c:57 | A `%d` directive at the text of `x`, followed by a non-digit, stores `x` and stops right after that text. |
| `CStrings.StrLen` | c/src/main.c:37 | `strlen` returns the index of the first NUL, which is the length of the C string. |
| `CStrings.StrCpy` | c/src/main.c:38 | After `strcpy` the buffer holds exactly `src` as its C string; nothing after the terminator changes. |
| `CStrings.StrCat` | c/src/main.c:39-41 | After `strcat` the C string is the old one followed by `src`, when both fit with the terminator. Every char after the new terminator is left as it was. |
| `Pairs.WriteIntPairs` | c/src/main.c:80-96 | The output is the lines of the first `npairs` pairs in array order, each as key, comma, value and newline. It is empty when `npairs <= 0`. |
| `Pairs.ReadIntPairs` | c/src/main.c:48-78 | `nline` is -1 exactly when the input is malformed. Otherwise it is the number of pairs returned, and they are the pairs of the newline-terminated lines in input order. |
| `Pairs.ScanPair` | c/src/main.c:57 | `fscanf("%d,%d")` never moves backwards and never stores the value without the key. The comma is matched with no white space skipped before it. A directive that fails stores nothing and ends the scan. |
| `Pairs.ScanPairOfPair` | c/src/main.c:57 | `fscanf("%d,%d")` at a written key, comma and value that no digit follows stores both ints and stops after the value. |
| `Pairs.ReadFromLine` | c/src/main.c:56-69 | One loop turn over a written line stores its pair and goes on after the newline. |
| `Pairs.ReadWrittenPairs` | c/src/main.c:48-96 | Round trip: reading what `write_int_pairs` wrote gives back the same pairs in the same order, so the count is the number of pairs. |
| `Pairs.UnterminatedLastPairDropped` | c/src/main.c:59-66 | A last pair with no newline after it is not stored: end of input ends the loop first. |
| `Pairs.RejectsCharAfterPair` | c/src/main.c:59-63 | A pair followed by any char other than a newline or a digit makes the whole read return -1. |
| `Pairs.RejectsKeyOnlyLine` | c/src/main.c:57-69 | A line with a key and no value makes the whole read fail (the corrected reading, see Findings). |
| `Pairs.ReadFromAsWritten` | c/src/main.c:56-74 | The loop as written only appends: what it returns extends the pairs already read, by at most one pair per remaining char. Each turn stores `k` and `v` even when `fscanf` left one or both as they were. |
| `Pairs.ReadPairsAsWritten` | c/src/main.c:48-78 | `read_int_pairs` as written, from initial `k` and `v`: when it succeeds, it returns no more pairs than the input has chars. |
| `Pairs.AsWrittenAgrees` | c/src/main.c:56-74 | Wherever the corrected reading succeeds, the loop as written reads the same pairs, whatever `k` and `v` held before. |
| `Pairs.ReadWrittenPairsAsWritten` | c/src/main.c:48-96 | The loop as written also reads back exactly what `write_int_pairs` wrote, whatever the initial `k` and `v`. |
| `Pairs.KeyOnlyLineCounterexample` | c/src/main.c:57-69 | For `1,2\n3\n` the loop as written stores `(1,2)` and `(3,2)`, reusing the stale value; the corrected reading returns -1. |
| `NodeDump.WriteNode` | c/src/main.c:27-46 | The line written is key, `,`, value and `,b\n` for black or `,r\n` for red. With its NUL it is exactly `strlen(key)+strlen(value)+5` chars long, so every `strcpy`/`strcat` step stays in the buffer. |
| `NodeDump.NodeLineIsLine` | c/src/main.c:27-46 | A node line of the int tree is one newline-terminated line. Its length plus its NUL is the buffer size `write_node` allocates. |
| `NodeDump.NodeLineScansAsPair` | c/src/main.c:28-41 | A node line starts with its key and value in the CSV pair format: a `%d,%d` scan stores them and stops at the comma before the color. |
| `NodeDump.WriteIntTreeInorder` | c/src/main.c:122-137 | The dump is the left subtree's dump, the node's line, then the right subtree's dump, with each line built by `WriteNode` over `void_int_to_string`. |
| `NodeDump.InorderOneLinePerNode` | c/src/main.c:122-137 | The in-order dump splits into exactly one line per node: the node lines in left–node–right order. |
| `NodeDump.SearchTreeIffAscending` | c/src/main.c:122-150 | A tree is a search tree exactly when its in-order dump lists the keys in strictly ascending order. |
| `NodeDump.PrintTreeValues` | c/src/main.c:163-185 | The output is the right subtree at `indent + 4`, then `indent` spaces and the value line, then the left subtree at `indent + 4`. |
| `NodeDump.IndentedValueIsLine` | c/src/main.c:172-180 | The indent and the value printed for a node form one newline-terminated line. |
| `NodeDump.PrintOneLinePerNode` | c/src/main.c:163-185 | Called at indent 0, the output splits into exactly one line per node, in `Layout` order. The line of a node at depth d is indented by `INDENT_STEP * d`. |
| `NodeDump.ValueLineShape` | c/src/main.c:163-184 | The line of a node at depth d starts with exactly `4*d` spaces. The char after them is `<` exactly when the node is red. |
| `NodeDump.LayoutReversesInorder` | c/src/main.c:163-185 | `print_tree_values` visits the nodes in exactly the reverse of the in-order dump's order. |
| `NodeDump.PrintTextIsLines` | c/src/main.c:163-185 | Printing a subtree whose root is at depth d is the concatenation of its value lines at indent `4*d`, in `Layout` order. |

## Left out

- The red-black tree itself (`rbtree_create`, `rbtree_insert` and the coloring invariants). `rbtree.h` and its implementation are not part of this model. `create_tree_from_pairs` (c/src/main.c:152-161) is only a loop over `rbtree_insert`, so it is left out too. A tree is any `NodeDump.Tree`, and the search-tree property is stated on its own.
- `main` and `parse_opt` (argument parsing, `fopen`/`fclose`, messages). They are I/O plumbing. This includes the file-name building at c/src/main.c:257-258.
- `generate_random_key_values_pairs`, because its values come from `rand()`.
- The pair buffer of `read_int_pairs` and its `realloc` growth (c/src/main.c:54, 71-72, 76). The pairs read are a growing sequence, so the model does not capture the growth arithmetic. As written, `100 * (100 / nline + 1)` is 100 when `nline` is 200. So the `realloc` then shrinks the buffer to 100 entries, and the store of the 201st pair (c/src/main.c:68-69) writes past the end of the block.
- Pairs.ReadIntPairs: models the corrected loop, which fails on a line missing an int. The loop as written is `Pairs.ReadPairsAsWritten` (see Findings).
- Pairs.ReadIntPairs: `next` is a plain `char` compared with `EOF`. The model takes end of input to end the loop, and neither platform behaves exactly like that. Where `char` is signed, a `0xFF` byte in the input equals `EOF` and also ends the loop. Where `char` is unsigned, `EOF` is stored as 255, so `next != EOF` always holds and c/src/main.c:62 returns -1 for every input that reaches its end. Neither case is modelled.
- Decimal.ScanIntOfDecimal: a `%d` item outside the 32-bit range is undefined behaviour in C. The scan stores the unbounded value.
- Ints are unbounded throughout; `(int)` casts through `void*` are the identity.
- `NodeDump.WriteNode` takes the texts of its key and value from the converters it is given. A converter returning NULL (the asserts at c/src/main.c:34-35) is not modelled: `sprintf("%d")` into a 50-char buffer does not fail.
- The model assumes a build without `NDEBUG`. `compare_int` rejects equal keys only through the assert at c/src/main.c:147, and `write_node` is called only inside the `assert` at c/src/main.c:132. Under `NDEBUG` equal keys get the answer 0, and the in-order dump writes nothing.
- The return values of `fputs`, `fputc` and `fprintf`, the `assert(... > 0)` on `write_node` at c/src/main.c:132, and `free`. Writing to a stream is modelled as appending to the text.
- `write_int_pairs` falls off its end without a `return`. Its int result is not modelled.

## Findings

| source | as written | input that shows it | evidently intended | confidence | as-written member | corrected member |
|---|---|---|---|---|---|---|
| c/src/main.c:57-69 | The return value of `fscanf` is ignored. When only the key matched, the pair is stored with the `v` left over from the line before, or with the uninitialised `v` on the first line. | `1,2\n3\n` reads as `(1,2),(3,2)` | A line that does not hold both ints is malformed and the read returns -1 | not executed | `Pairs.KeyOnlyLineCounterexample` (on `Pairs.ReadPairsAsWritten`) | `Pairs.RejectsKeyOnlyLine` (on `Pairs.ReadPairs`, which `Pairs.ReadIntPairs` implements) |
