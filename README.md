# Product-name generator: column classifier and batch loop

This project models the core of a product-name generator for a bathroom-products shop.
Each product is one row of a spreadsheet. Every column is a product attribute:
brand, category, colour, warranty, head-shower diameter, and so on.

For each row, `get_features` does three things:
- It cleans the row. Empty cells and zero cells are dropped.
- It fills a *standard dict* with the six columns that belong in every name. The dict
  follows a fixed column order.
- It fills a *feature dict* with every remaining column that is not on a fixed exclusion
  list. The dict follows the row's column order.

`create_names` walks the sheet row by row. For each row it sends both dicts to a naming
service (`call_api`) and appends the service's answer to the name series.

The model has five modules:
- `Sequences`: order-preserving subsequences and duplicate-free sequences.
- `Rows`: cell values, rows and insertion-ordered dicts, given as sequences of
  (column name, value) cells. `Assign` is Python's `d[k] = v`.
- `Columns`: the two fixed column lists.
- `Features`: the classifier. `GetFeatures` is imperative, with the source's two loops.
  It is proved equal to the function `Classify`. The properties of the two dicts are
  lemmas about `Classify`.
- `Batch`: the sheet, the naming service and the `CreateNames` loop.

The naming service is a parameter of `CreateNames`: a function from the two dicts to a
`Completion`. A completion is one of three things:
- the message text;
- a message whose content is `None`;
- an exception.

The source has no `try`/`except`. An exception in any row therefore ends the whole batch
and no series is returned. The model returns `Failure(Aborted(row, error))` in that case.

### Behaviour of the code worth knowing

- `"materiaalgroep (1967)"` is a standard column that is not on the exclusion list
  (main.py:135, 142-147). So the material group lands in both dicts whenever the row has
  it (`Features.SharedKeys`).
- The standard list puts colour (`"kleur (8)"`) before size (`"afmeting (1)"`)
  (main.py:135), and the standard dict follows that order.
- The feature dict is filled in the row's column order (main.py:149-151), and the model
  keeps that order (`Features.FeatureDict`).
- Any exception from the naming service ends the batch, because `create_names` has no
  `try`/`except` (main.py:167-186). A message whose content is `None` is appended as
  `None` (main.py:178-182, `Batch.CreateNames`).

## Model

| member | source | states |
|---|---|---|
| Features.CleanKeeps | python_project_boilerplate/src/main.py:127-128 | the cleaned row holds exactly the non-empty, non-zero cells of the row, each as many times as the row has it, in row order |
| Features.CleanLookup | python_project_boilerplate/src/main.py:127-128 | after cleaning, a column is present exactly when the row had it with an informative value, the value is unchanged, and names stay distinct |
| Columns.StandardColumnsDistinct | python_project_boilerplate/src/main.py:135 | the six standard columns are pairwise different |
| Columns.StandardNotExcluded | python_project_boilerplate/src/main.py:135-147 | of the standard columns, only the material group is missing from the exclusion list |
| Columns.ExcludedNotStandard | python_project_boilerplate/src/main.py:142-147 | warranty and commercial size are excluded although they are not standard, so the classifier drops them |
| Rows.Assign | python_project_boilerplate/src/main.py:139 | `d[k] = v`: an existing key keeps its position and a new key is appended; afterwards `k` maps to `v`, every other key keeps its value, and distinct keys stay distinct |
| Features.PickSpec | python_project_boilerplate/src/main.py:137-139 | selecting listed columns keeps exactly the listed names the row has, with the row's values, in list order |
| Features.PickStep | python_project_boilerplate/src/main.py:137-139 | one pass of the standard loop (test `col in row_data`, then assign) extends the selection by the next listed column |
| Features.FilterStep | python_project_boilerplate/src/main.py:149-151 | one pass of the feature loop (test the exclusion list, then assign) extends the filter by the next row cell |
| Features.GetFeatures | python_project_boilerplate/src/main.py:114-153 | the two loops build exactly the standard dict and the feature dict of `Classify` |
| Features.StandardDict | python_project_boilerplate/src/main.py:135-139 | the standard dict has a key exactly when it is a standard column with an informative value in the row; the value is the row's; keys follow the standard order and are distinct |
| Features.StandardIgnoresColumnOrder | python_project_boilerplate/src/main.py:137-139 | two rows with the same cells in different column orders give the same standard dict |
| Features.FeatureDict | python_project_boilerplate/src/main.py:142-151 | the feature dict holds exactly the informative cells whose column is not excluded, with the row's values, in row order, with distinct keys |
| Features.NoExcludedFeature | python_project_boilerplate/src/main.py:142-151 | no column of the exclusion list is ever a key of the feature dict |
| Features.SharedKeys | python_project_boilerplate/src/main.py:135-151 | a key is in both dicts exactly when it is the material group and the row has an informative material group |
| Features.DroppedColumns | python_project_boilerplate/src/main.py:135-151 | an informative column reaches neither dict exactly when it is excluded and not standard |
| Features.UninformativeRow | python_project_boilerplate/src/main.py:127-153 | a row whose cells are all empty or zero gives two empty dicts |
| Features.ShowerSetCleaned | python_project_boilerplate/src/main.py:127-128 | on a shower-set row, cleaning drops the missing sub-brand and the zero price and keeps the rest in order |
| Features.ShowerSetStandard | python_project_boilerplate/src/main.py:135-139 | on that row, the standard dict is brand, category, colour |
| Features.ShowerSetFeatures | python_project_boilerplate/src/main.py:142-151 | on that row, the feature dict is thermostat, head-shower diameter (the warranty is excluded) |
| Features.ShowerSetExample | python_project_boilerplate/src/main.py:114-153 | the complete classification of the shower-set row |
| Batch.RowAt | python_project_boilerplate/src/main.py:171 | `df.iloc[[index]]`: the record under the sheet's header, whose column names are distinct |
| Batch.CreateNames | python_project_boilerplate/src/main.py:156-186 | the batch succeeds exactly when no row's call raises; on success it returns one entry per row, in row order, with entry `i` taken from row `i`'s call; on failure it names the first row whose call raised, together with that exception |

## Left out

- `call_api` (main.py:21-91) is left out: the prompt text, the model parameters, the
  client and the network. `CreateNames` takes a function parameter in its place. That
  makes the service deterministic for given dicts, whereas the real service samples its
  answer.
- The API key from `config.py` is left out. So are the warnings, pandas and logging
  setup (main.py:10-18),
  the log line at main.py:175 and the `print`s at main.py:183-184, because they are I/O
  only.
- `load_data` and the `__main__` block are left out because they read the spreadsheet
  and print names. `Table` stands for the sheet that `read_excel` returns.
- `config.py`, `data_loader.py` and `visualization.py` are not part of this model.
- Cell values are `Missing | Num(real) | Bool | Str`. NaN and None are both `Missing`.
  Floating-point rounding, integer columns, dates and other object types are not
  modelled separately: a date behaves like text and is never equal to 0.
- The cleaning step works on a one-row frame. `(row_data != 0).any(axis=0)` keeps a
  column exactly when its single cell is non-zero. The model states that directly
  rather than modelling frames with several rows.
- Features.GetFeatures: requires distinct column names. `read_excel` renames duplicate
  headers, and with a repeated name the source's `row_data.iloc[0][col]` would be a
  series rather than a value.
- Batch.CreateNames: returns the names as a sequence of optional strings rather than a
  pandas `Series`. The index labels `0..n-1` are the sequence positions.
