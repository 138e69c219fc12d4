# JSON export of an elaborated SystemRDL register model

This project models the core of the JSON export script that ships with the
SystemRDL compiler (`examples/export_json.py`). The script takes the register
model the compiler has already elaborated: a top-level address map whose
children are address maps, register files and registers, with registers
holding fields. It turns that model into a tree of ordered dicts and lists,
which it then dumps to a file as JSON.

The model has these parts:

- `RdlModel` (`rdl_model.dfy`) is the elaborated input tree.
  - It is a closed datatype `Node = Container | Reg`, plus a `Field` record.
  - Everything the script asks the compiler for is stored on the node as a
    plain value. This covers `inst_name`, `is_array`, the properties `desc`,
    `indexdesc`, `regwidth`, `reset` and `sw`, the address offset, and the
    unrolled array instances.
  - The compiler's address query on a register is `AddressOffset`. It takes
    the element index as an explicit argument, instead of reading it from
    the node's `current_idx`.
- `JsonValue` (`json_value.dfy`) is the JSON-like value.
  - An object is a sequence of members in insertion order. The serialiser
    emits dict keys in that order.
  - `Keys` and `Lookup` read the members back.
  - `RecordOutline` lists the `(type, inst_name)` pairs of every record in
    pre-order.
- `ExportJson` (`export_json.dfy`) holds the three converters.
  - `ConvertField` is a pure function, as in the source.
  - `ConvertReg` and `ConvertAddrmapOrRegfile` are methods, as in the
    source. They build the record key by key, count unrolled instances in a
    loop and append children in a loop.
  - Each method is proved equal to a specification function (`RegRecord`,
    `ContainerResult`). The fatal error for an arrayed container is an
    `Err` result that propagates through the recursion. The first failing
    child stops the walk.
- `ExportJsonProofs` (`export_json_proofs.dfy`) holds the properties of the
  converters. These cover:
  - the key order of each record kind;
  - which keys are optional;
  - the value under every key;
  - one child record per source child, in order;
  - the rejection of an arrayed container anywhere in the tree;
  - the output tree having the input tree's shape.
- `JsonWriter` (`json_writer.dfy`) implements `convert_to_json`. It builds
  the complete tree, and only then opens the output file and writes to it.
  On failure the file is left untouched.

The address is read from the compiler's node property `address_offset`
(`examples/export_json.py:41`), but it is emitted under the key
`addr_offset`, and the model uses that key.

## Model

| member | source | states |
|---|---|---|
| `ExportJson.ConvertField` | examples/export_json.py:10-19 | a field record's keys are exactly `type`, `inst_name`, `lsb`, `msb`, `reset`, `sw_access`, `desc`, in that order; `desc` is there even when unset |
| `ExportJsonProofs.FieldRecordValues` | examples/export_json.py:10-19 | `type` is "field"; `lsb` and `msb` pass through unchanged; `reset` is the reset value, or null when unset; `sw_access` is the access-mode name; `desc` is the description, or null when unset |
| `ExportJsonProofs.FieldRecordRoundTrip` | examples/export_json.py:10-19 | reading a field record back gives the original field, so the conversion loses nothing |
| `ExportJsonProofs.ResetKeptDistinct` | examples/export_json.py:16 | "no reset" and "reset 0" give different field records |
| `RdlModel.AccessFromName` | examples/export_json.py:17 | a recognised access-mode name names the mode returned, and the name of every mode is recognised as that mode, so the emitted name can be read back |
| `ExportJson.FieldRecords` | examples/export_json.py:59-62 | a register's children list has one field record per field, in order, each being that field's record |
| `ExportJson.ConvertReg` | examples/export_json.py:22-64 | the key-by-key build, the instance-counting loop and the field-append loop together produce exactly the register record `RegRecord` |
| `ExportJsonProofs.RegKeysOf` | examples/export_json.py:33-62 | a register record's keys are `type`, `inst_name`, `addr_offset`, then `desc` if set, `index` if `indexdesc` is set, `entries` and `entry_size` if arrayed, then `children` |
| `ExportJsonProofs.RegKeysDistinct` | examples/export_json.py:33-62 | no key occurs twice in a register record |
| `ExportJsonProofs.ContainerKeysDistinct` | examples/export_json.py:78-94 | no key occurs twice in an address map or register file record |
| `ExportJsonProofs.RegRecordValues` | examples/export_json.py:33-62 | values of a register record: `type` is "reg"; `addr_offset` is the base offset; `desc` and `index` are present exactly when set; `entries` is the number of unrolled instances and `entry_size` is `regwidth`, both exactly when arrayed; `children` holds the field records |
| `RdlModel.AddressOffset` | examples/export_json.py:37-41 | an arrayed register's address cannot be resolved without an element index; a non-arrayed register's address is its plain offset |
| `ExportJsonProofs.RepresentativeAddressIsBase` | examples/export_json.py:37-41 | the index 0 that the exporter supplies resolves an arrayed register to its base address, the lowest address of any element |
| `ExportJsonProofs.RegArrayExample` | examples/export_json.py:49-56 | a four-element arrayed register of width 32 reports `entries` 4 and `entry_size` 32 at its base offset |
| `ExportJson.ConvertAddrmapOrRegfile` | examples/export_json.py:67-98 | the array check, the key-by-key build and the dispatching append loop produce exactly `ContainerResult`, errors included |
| `ExportJson.ChildrenErrorPropagates` | examples/export_json.py:90-96 | once a child fails, the whole children list fails with that same error |
| `ExportJsonProofs.ChildrenResultPointwise` | examples/export_json.py:89-96 | the children convert exactly when every child converts; the list then holds one record per child, in declaration order, each being that child's conversion |
| `ExportJsonProofs.ContainerRecordValues` | examples/export_json.py:74-96 | a container record's keys are `type`, `inst_name`, `addr_offset`, then `desc` if set, then `children`; `type` is "addrmap" or "regfile" by kind; `children` holds one record per child, in order, each made by the converter of that child's kind |
| `ExportJsonProofs.ContainerFailsAtFirstArrayed` | examples/export_json.py:68-72 | conversion succeeds exactly when no container in the tree is an array; otherwise it fails with the fatal error naming the first arrayed container in pre-order; arrayed registers never fail |
| `ExportJsonProofs.ChildFailsAtFirstArrayed` | examples/export_json.py:91-94 | the same holds for one child, whatever its kind |
| `ExportJsonProofs.ChildrenFailAtFirstArrayed` | examples/export_json.py:90-96 | the same holds for a list of children: the first arrayed container in declaration and pre-order stops the loop |
| `ExportJsonProofs.FieldRecordOutline` | examples/export_json.py:10-19 | a field record is one record tagged "field" with the field's name |
| `ExportJsonProofs.FieldRecordsOutline` | examples/export_json.py:59-62 | a register's field records list its fields in order |
| `ExportJsonProofs.RegRecordOutline` | examples/export_json.py:22-64 | a register record is a "reg" record followed by its fields, with an arrayed register appearing once |
| `ExportJsonProofs.OutputMirrorsInput` | examples/export_json.py:67-98 | the pre-order list of `(type, inst_name)` over the output equals the pre-order list of `(kind, name)` over the input's containers, registers and fields; nothing is dropped, duplicated or reordered |
| `ExportJsonProofs.ChildMirrorsInput` | examples/export_json.py:90-96 | the same holds for the record of any one child |
| `ExportJsonProofs.ChildrenMirrorInput` | examples/export_json.py:90-96 | the same holds for the children list, in declaration order |
| `ExportJsonProofs.ChipExample` | examples/export_json.py:101-103 | an address map "chip" holding a register "ctrl" at offset 4, which has one field "enable", converts to exactly the expected record tree |
| `JsonWriter.OutputFile.Write` | examples/export_json.py:106-107 | writing leaves the file holding exactly the document |
| `JsonWriter.ConvertToJson` | examples/export_json.py:101-107 | the file is written only after the whole tree is built, and it then holds that tree; on a fatal error the error is returned and the file is never touched |

## Left out

- The command-line block (examples/export_json.py:111-125) is not modelled: compiling and elaborating the input files, exiting on a compile error, and the fixed `out.json` path. It drives the external compiler.
- The serialisation to text (`json.dump` with an indent of 4) and the file system are left out. The output file is an object whose content is the JSON value written to it.
- The compiler library is represented only by stored values. `get_property`, `children()`, `fields()` and `unrolled()` are replaced by fields of the node. How the compiler unrolls arrays and resolves addresses is not modelled.
- `RdlModel.AddressOffset` computes an element's address as the base offset plus the flattened element index times the stride. It takes that flattened index rather than the compiler's per-dimension index list. The only index the exporter ever supplies is 0, which resolves to the base under either form.
- The exporter sets `current_idx` to `[0]` on the shared node and never resets it. The model passes index 0 to the address query as an argument instead, so no later reader of the node is affected by the write.
- The fatal error has no source-location reference: the compiler's `inst_src_ref` is not modelled. The error carries the diagnostic's message and the offending instance's name.
- The `else: raise RuntimeError` branch for a container that is neither an address map nor a register file cannot be reached: the container kind is a closed datatype.
- A child that is neither a container nor a register is excluded by the datatype. In the source that case has no branch in the dispatch, so it would reuse an unbound or stale `json_child`. The model does not reproduce that behaviour.
- `reset` is modelled as an integer or absent. A reset given as a reference to another component is not modelled, because the serialiser could not encode that value.
- `indexdesc` is a user-defined property. Its value is modelled as a string.
- The `rdlc` compiler handle, which is passed to every converter, is not modelled. It is used only to raise the fatal error.
- Converting the same model twice gives the same output, because the converters are functions of the input. No separate lemma states this.
