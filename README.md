# modlist1: a linked list behind a /proc entry

`modlist1.c` is a Linux kernel module. It keeps one global list,
`mylist`, and exposes it through `/proc/modlist1`.

- Writing `cleanup\n`, `add <x>` or `remove <x>` to the file changes the list.
- Reading the file returns the list, one element per line, followed by a NUL.

The module has two builds:

- The default build keeps `int` nodes.
- Built with `PARTE_OPCIONAL`, it keeps strings instead.

This project models both builds in Dafny and proves what each operation does.

| File | Module | What it holds |
|---|---|---|
| `cchars.dfy` | `CChars` | C strings (`strlen`, `strcpy`, `strcmp`, the NUL that ends a buffer) and the kernel's `isspace` |
| `decimal.dfy` | `Decimal` | The text `snprintf("%d")` writes, C's truncating division by ten, the digit-count loop of the read path, and `sscanf`'s `%d` conversion |
| `listops.dfy` | `ListOps` | The list operations as functions on sequences: append, remove every occurrence (`Without`), clear. The `Command` type, and `Apply`, which performs one command |
| `scan.dfy` | `Scan` | The command parser of `modlist_write`, in both builds |
| `records.dfy` | `ReadFormat` | The bytes `modlist_read` produces, their length, and a decoder that reads them back |
| `modlist.dfy` | `ModList` | The two list classes `IntModList` and `StringModList`, with the list as a `seq` field and one method per C function |

In both classes:

- `Remove` walks the list once and unlinks matching nodes as it goes. It works on a local copy of the list and stores the result in the field when the walk ends. The loop invariant says the copy is the kept part of the visited prefix followed by the unvisited rest.
- `Read` fills a `MAX_DIGS`-byte array `kbuf` the same way the C loop does. It keeps the digit-count loop, and writes each record's newline over the byte after the kept part. That byte is `snprintf`'s NUL, or, for zero, its `'0'`.

Two properties of the integer read follow from this:

- Zero reads as an empty line. The digit-count loop counts nothing for 0, so the newline overwrites the `'0'`.
- Negative numbers read with their sign. The loop divides with C's rounding toward zero, modelled by `CDiv10`.

The parser follows the kernel's `sscanf`:

- The keyword is matched byte for byte.
- A blank in the format matches any number of blanks, none included, so `add5` is the command `add 5`.
- `%d` accepts an optional `-` but no `+`.
- `%s` takes the longest run of non-blank bytes.
- A result of 1 means nothing but blanks follows the argument. Any further word would be taken by the trailing `%s`, and the result would be 2.
- Blanks are the bytes the kernel's `isspace` accepts. These are space, tab through carriage return, and byte 0xA0.

## Model

| member | source | states |
|---|---|---|
| ModList.IntModList.constructor | mod1/modlist/Opcional1/modlist1.c:309 | the list starts empty |
| ModList.IntModList.Add | mod1/modlist/Opcional1/modlist1.c:58-66 | the new list is the old one with `num` appended at the tail |
| ModList.IntModList.Remove | mod1/modlist/Opcional1/modlist1.c:81-96 | after the single walk, the list is the old list without any element equal to `num`, the others in their order |
| ModList.IntModList.Cleanup | mod1/modlist/Opcional1/modlist1.c:118-133 | the list is empty whatever it held |
| ModList.IntModList.Read | mod1/modlist/Opcional1/modlist1.c:168-227 | with `*off > 0`: returns 0 and leaves the offset. If the caller's buffer is shorter than the records and the NUL (`nr_bytes` after line 214): `-ENOSPC`, offset unchanged. Otherwise: returns exactly the records of the list and the NUL, and advances the offset by the count returned |
| ModList.IntModList.Write | mod1/modlist/Opcional1/modlist1.c:242-290 | more than `MAX_CHARS` bytes: `-ENOSPC`, list and offset unchanged. Bytes that are not a command: `-EINVAL`, list and offset unchanged. Otherwise: the parsed command is applied once, `len` is returned and the offset advances by `len` |
| ModList.StringModList.constructor | mod1/modlist/Opcional1/modlist1.c:309 | the list starts empty, every node fits its buffer, and no node holds a newline |
| ModList.StringModList.AddString | mod1/modlist/Opcional1/modlist1.c:69-78 | the new list is the old one with `str` appended. A string shorter than `MAX_CHARS` keeps every node fitting its `vmalloc(MAX_CHARS)` buffer |
| ModList.StringModList.RemoveString | mod1/modlist/Opcional1/modlist1.c:99-115 | after the walk comparing with `strcmp`, the list is the old list without any string equal to `str`. No node gains a newline |
| ModList.StringModList.CleanupString | mod1/modlist/Opcional1/modlist1.c:136-152 | the list is empty |
| ModList.StringModList.Read | mod1/modlist/Opcional1/modlist1.c:168-227 | as for integers, each record being the node's C string. When every node fits its buffer and holds no newline, what a successful read returns decodes back to the list |
| ModList.StringModList.Write | mod1/modlist/Opcional1/modlist1.c:242-290 | as for integers, with a word as argument. An applied write keeps every node fitting its buffer, and keeps every node's string free of newlines |
| ModList.RecordLength | mod1/modlist/Opcional1/modlist1.c:203-209 | the sign test and the division loop count exactly the bytes of the record that survives: the text of a non-zero number, nothing for zero |
| ModList.StoreIntRecord | mod1/modlist/Opcional1/modlist1.c:200-210 | one loop pass stores the element's record and a newline right after the earlier ones, and advances `nr_bytes` past them |
| ModList.StoreStringRecord | mod1/modlist/Opcional1/modlist1.c:187-190 | one loop pass stores the string and a newline after the earlier records, and advances `nr_bytes` by `strlen + 1` |
| ModList.StoreIntRecords | mod1/modlist/Opcional1/modlist1.c:199-211 | after the loop, the start of `kbuf` holds the records of the whole list, and `nr_bytes` is their length |
| ModList.StoreStringRecords | mod1/modlist/Opcional1/modlist1.c:186-191 | after the loop, the start of `kbuf` holds the records of all the strings, and `nr_bytes` is their length |
| ModList.PutText | mod1/modlist/Opcional1/modlist1.c:202 | `snprintf`/`strcpy` at `kbuf + nr_bytes` leave the text and its NUL there, keep the earlier records, and leave the bytes after the NUL alone |
| ModList.StoreLine | mod1/modlist/Opcional1/modlist1.c:202-210 | the newline written `n` bytes into the stored text keeps exactly the first `n` bytes of it as one line |
| ModList.AllFitWithout | mod1/modlist/Opcional1/modlist1.c:106-113 | removing strings keeps every remaining node fitting its buffer, and keeps every node free of newlines if it was before |
| ListOps.WithoutCounts | mod1/modlist/Opcional1/modlist1.c:88-95 | removing leaves no occurrence of the value and keeps every other value's number of occurrences |
| ListOps.WithoutAppend | mod1/modlist/Opcional1/modlist1.c:88-95 | removing works element by element: on a concatenation it is the concatenation of the removals, so the kept elements keep their order |
| ListOps.WithoutAbsent | mod1/modlist/Opcional1/modlist1.c:81-96 | removing a value the list does not hold changes nothing |
| ListOps.WithoutIdempotent | mod1/modlist/Opcional1/modlist1.c:81-96 | removing the same value twice is removing it once |
| ListOps.WithoutStep | mod1/modlist/Opcional1/modlist1.c:90-94 | each visited node is dropped exactly when it equals the value |
| ListOps.RemoveWalkStep | mod1/modlist/Opcional1/modlist1.c:88-95 | at every step the walk is at the visited node, and unlinking or skipping it keeps the list equal to the kept prefix followed by the unvisited rest |
| ListOps.Without | mod1/modlist/Opcional1/modlist1.c:81-96 | the list after `remove` is no longer than before, holds no element equal to the value, only elements of the old list, and every old element different from the value |
| ListOps.Apply | mod1/modlist/Opcional1/modlist1.c:276-283 | `cleanup` empties the list. `add` makes it one longer, keeps the earlier elements and puts the value last. `remove` drops every occurrence of the value and keeps how often each other value occurs |
| Scan.IntCommandForm | mod1/modlist/Opcional1/modlist1.c:276-283 | both directions: a write is the command `c` exactly when its C string is `"cleanup\n"` (for `cleanup`), or the keyword, blanks, a numeral for the argument and blanks (for `add` and `remove`). Anything else is rejected |
| Scan.StringCommandForm | mod1/modlist/Opcional1/modlist1.c:262-269 | both directions, for the string build: the keyword, blanks, a word without blank or NUL, and blanks |
| Scan.IntArgForm | mod1/modlist/Opcional1/modlist1.c:278 | both directions: `" %d %s"` after the keyword converts exactly one item, `v`, precisely when the rest is blanks, a numeral for `v` and blanks |
| Scan.StrArgForm | mod1/modlist/Opcional1/modlist1.c:264 | both directions: `" %s %s"` converts exactly one item, the word `a`, precisely when the rest of the C string is blanks, `a` and blanks |
| Scan.IntCommandAccepted | mod1/modlist/Opcional1/modlist1.c:278-281 | the keyword, blanks, a numeral (optional `-`, digits, leading zeros allowed) and blanks, ending at the NUL or the end of the bytes, is accepted as that command with that number |
| Scan.StringCommandAccepted | mod1/modlist/Opcional1/modlist1.c:264-267 | the keyword, blanks, one word and blanks is accepted as that command with that word |
| Scan.IntSecondWordRejected | mod1/modlist/Opcional1/modlist1.c:278-283 | anything but blanks after the number makes the write `-EINVAL`: a second word after blanks, on which `sscanf` returns 2, or a non-digit right after the digits, as in `add 5x` |
| Scan.StringSecondWordRejected | mod1/modlist/Opcional1/modlist1.c:264-269 | anything after the word and a blank, up to the NUL, makes the write `-EINVAL` |
| Scan.StringArgIsToken | mod1/modlist/Opcional1/modlist1.c:259-267 | a word taken from a write is non-empty, holds no blank and no NUL, and is shorter than the write itself, so it fits `str[MAX_CHARS]` and the node's buffer |
| Scan.IntArgOf | mod1/modlist/Opcional1/modlist1.c:278 | `" %d %s"` converts exactly one item from blanks, a numeral and blanks, and the item is the numeral's value |
| Scan.StrArgOf | mod1/modlist/Opcional1/modlist1.c:264 | `" %s %s"` converts exactly one item from blanks, a word and blanks |
| CChars.CStringTerminate | mod1/modlist/Opcional1/modlist1.c:255 | the NUL stored after the copied bytes leaves the C string they hold unchanged |
| CChars.CStringEqual | mod1/modlist/Opcional1/modlist1.c:108 | `strcmp` is zero on two NUL-free strings exactly when they are equal |
| CChars.SkipSpace | mod1/modlist/Opcional1/modlist1.c:264-278 | what is left after the blank in the format is no longer than the input, and is empty or starts with a non-blank |
| CChars.TokenLength | mod1/modlist/Opcional1/modlist1.c:264 | the `%s` field is no longer than the input, and stops either at the end of the input or at a blank |
| CChars.CString | mod1/modlist/Opcional1/modlist1.c:188-189 | the C string `strcpy` copies and `strlen` measures holds no NUL and is never longer than its buffer |
| CChars.CStringIsPrefix | mod1/modlist/Opcional1/modlist1.c:189 | what `strlen` measures is the part of the buffer before its first NUL |
| Decimal.CDiv10 | mod1/modlist/Opcional1/modlist1.c:207 | `data /= 10` rounds toward zero: the remainder is below ten in magnitude and has the sign of `data` |
| Decimal.DigitLoopCountIsTextLength | mod1/modlist/Opcional1/modlist1.c:203-209 | for a non-zero number, the sign and the division passes count exactly the bytes `snprintf` writes. For zero they count nothing, although `snprintf` writes one byte |
| Decimal.ValueOfDigits | mod1/modlist/Opcional1/modlist1.c:202 | the digits `snprintf` writes denote the number |
| Decimal.Digits | mod1/modlist/Opcional1/modlist1.c:202 | the digits `snprintf` writes for a positive number: at least one, all decimal digits, and no leading zero |
| Decimal.TextIsNumeral | mod1/modlist/Opcional1/modlist1.c:202 | the text `snprintf` writes for `%d` is a numeral for the number, with no leading zero and a minus sign only on negative numbers |
| Decimal.DigitLoopCount | mod1/modlist/Opcional1/modlist1.c:206-209 | the loop runs at least once exactly when `data` is not zero, and never more often than the magnitude of `data` |
| Decimal.ScanInt | mod1/modlist/Opcional1/modlist1.c:278 | `%d` fails exactly when the text starts neither with a digit nor with `-` and a digit. Otherwise it consumes a non-empty numeral for the value it returns, and the next byte is not a digit |
| Decimal.ScanNumeral | mod1/modlist/Opcional1/modlist1.c:278 | a numeral that no digit follows is read as its number and consumes exactly its bytes |
| Decimal.ScanText | mod1/modlist/Opcional1/modlist1.c:278 | `%d` reads the text `snprintf` writes for any number back as that number, consuming exactly that text |
| Decimal.TextIsPlain | mod1/modlist/Opcional1/modlist1.c:202 | a number's text holds no newline and no NUL |
| ReadFormat.IntRecordIsKeptText | mod1/modlist/Opcional1/modlist1.c:202-210 | the bytes of `snprintf`'s text that the sign test and the digit-count loop count are the number's record: its whole decimal text, and nothing for zero |
| ReadFormat.RecordsShape | mod1/modlist/Opcional1/modlist1.c:186-211 | each element adds at least its newline, the empty list reads as nothing, and any other list's records end with a newline |
| ReadFormat.Serialised | mod1/modlist/Opcional1/modlist1.c:214 | the read is one byte longer than the records and ends with the NUL |
| ReadFormat.RecordsAppend | mod1/modlist/Opcional1/modlist1.c:199-211 | the records of a list are the records of its parts, one after the other, in list order |
| ReadFormat.RecordsPrefix | mod1/modlist/Opcional1/modlist1.c:186-211 | each loop pass adds one line to the records of the visited prefix, and they never outgrow the records of the whole list |
| ReadFormat.IntReadLength | mod1/modlist/Opcional1/modlist1.c:199-214 | the integer read returns, for each element, the sign, one byte per division pass and the newline, plus one for the NUL |
| ReadFormat.StringReadLength | mod1/modlist/Opcional1/modlist1.c:186-214 | the string read returns the sum of `strlen + 1` over the elements, plus one |
| ReadFormat.RecordsRoundTrip | mod1/modlist/Opcional1/modlist1.c:186-214 | records whose lines each parse back to their element decode back to the list |
| ReadFormat.IntRoundTrip | mod1/modlist/Opcional1/modlist1.c:199-214 | a read of the integer list decodes back to the list, zeros (empty lines) and negatives included |
| ReadFormat.StringRoundTrip | mod1/modlist/Opcional1/modlist1.c:186-214 | a read of a string list with no newline or NUL inside a string decodes back to the list |
| ReadFormat.ZeroReadsEmpty | mod1/modlist/Opcional1/modlist1.c:203-210 | the list `[0]` reads as one empty line and the NUL |

## Left out

- Memory management (`vmalloc`, `vfree`) and the `list_head` link handling (`list_add_tail`, `list_del`, `list_entry`). The list is the sequence of node data, and unlinking a node removes its element from the sequence.
- `copy_to_user` and `copy_from_user`, and the `-EFAULT` they can cause. The user buffer is a value the read returns or the write receives.
- `printk`, `proc_create`, `remove_proc_entry`, and the `-ENOMEM` path of `list_module_init`. These are module registration and logging. The constructor models only `INIT_LIST_HEAD`. `list_module_close` calls `cleanup`/`cleanupString`, which are modelled.
- The `#ifdef PARTE_OPCIONAL` switch. The two builds are the two classes `IntModList` and `StringModList`.
- ModList.IntModList.Read: the C code writes past `kbuf[MAX_DIGS]` when the records do not fit, with no bound check. The model instead requires that the records and the NUL fit in `MAX_DIGS` bytes when `*off <= 0`. The same holds for ModList.StringModList.Read.
- ModList.IntModList.Write: for a write of exactly `MAX_CHARS` bytes, `kbuf[len] = '\0'` stores one byte past `kbuf`. The model parses the written bytes followed by a NUL and does not model that out-of-bounds store. The same holds for ModList.StringModList.Write.
- Scan.ParseIntCommand: numbers are unbounded integers. `int` is 32 bits wide in C, and the wrap of `sscanf`'s `%d` on an out-of-range number is not modelled.
- ModList.IntModList.Remove: the walk unlinks nodes from a local copy of the list and assigns the field once at the end, where the C code unlinks from the live list. Nothing else runs during the walk, so only the final list is visible. The same holds for ModList.StringModList.RemoveString.
- Concurrency. Reads and writes are taken one at a time, as the module does not lock `mylist`.
- The repository's other modules are not part of this model: the proc-file variant in `modlist2.c`, the system calls, the USB driver, the FIFO and synchronisation module, the interrupt module and the final project.
