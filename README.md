# Park distances: shortest-path table and block-group codes

`py/park_distances.py` computes, for each census block group, the network
distance to the nearest point of each park. The module is built in three parts:

- `create_ddict` builds a two-level dictionary `ddict[origin][park]` with
  every entry set to a start value. The default start value is infinity.
- `get_shortest_paths` walks every origin, every park id and every point of
  that park. For each point it asks the graph for a shortest-path length. A
  search that raises counts as infinity. The entry is overwritten whenever the
  new length is strictly smaller.
- `get_blockgroups` prepares the census rows:
  - The state and block-group codes are rendered with `str`.
  - The county code is zero-padded to 3 digits and the tract code to 6.
  - The four strings are concatenated into the GEOID.
  - Only the rows whose padded county code is listed are kept.

The model has three modules:

- `Distances` (`distances.dfy`):
  - Distances are `Fin(n)` or `Inf`, with the strict order of Python's `<`
    on these values.
  - The running minimum `Lowered` is the result of lowering a value by a
    sequence of candidates, one at a time.
- `ParkDistances` (`park_distances.dfy`):
  - `CreateTable` is `create_ddict`, with the same default start value, infinity.
  - `GetShortestPaths` is the three nested loops, split into
    `GetShortestPaths`, `RelaxParks` and `RelaxPoints`, one method per loop.
    Each loop is proved against `RelaxAll`. `RelaxAll` applies, in order, the
    comparison and store of lines 42-43 for every probe the loops make.
  - A probe is one search result for one (origin, park) entry. `Probes` lists
    them in the order the loops make them.
  - `ShortestPaths` is the whole update as a function of its inputs.
  - The lemmas characterise each entry of the result as the running minimum
    of its start value and exactly the lengths of the searches for that entry.
- `Census` (`census.dfy`):
  - Decimal rendering, left padding, GEOID construction and the county filter.
  - The GEOID of codes within their widths splits back into the codes.
  - The filter keeps exactly the listed rows, in order.

The graph search `nx.shortest_path_length(graph_proj, bg.node, point.node)`
is an oracle. In the model it is a parameter `pathLength` from an origin node
and a point node to `Found(length)` or `Failed`. The source reads the park ids
from the module-level `park_ids` and the graph from the module-level
`graph_proj`, not from its `graph` parameter. Both are parameters of the model.

The source mutates `ddict` in place and returns it; its caller reassigns the
result (line 163). The model returns the updated table as a new map value.

## Model

| member | source | states |
|---|---|---|
| Distances.Less | py/park_distances.py:42 | Python's `<` on lengths and infinity: two lengths compare as numbers, every length is below infinity, and infinity is below nothing, so a pair is never below itself |
| Distances.LengthOf | py/park_distances.py:35-39 | A search gives its path length, and gives infinity exactly when it raised |
| Distances.Lowered | py/park_distances.py:41-43 | Repeated compare-and-store from a start value: the result is no larger than the start and is the start or one of the candidates; `LoweredIsMinimum` and `LoweredUnique` pin it as the minimum |
| Distances.LoweredIsMinimum | py/park_distances.py:41-43 | Repeated "replace when strictly smaller" gives a value no larger than the start and than every candidate, and equal to the start or to one of the candidates |
| Distances.LoweredUnique | py/park_distances.py:41-43 | Any lower bound of the start and the candidates that is one of them is the running minimum, so the result does not depend on how it is reached |
| Distances.LoweredIsInf | py/park_distances.py:38-43 | The running minimum is infinity exactly when the start and every candidate are infinity |
| Distances.LoweredIdempotent | py/park_distances.py:41-43 | Lowering again by the same candidates changes nothing |
| ParkDistances.CreateTable | py/park_distances.py:85-103 | The table has exactly the ids of `id1` as outer keys, and under each exactly the ids of `id2`, every entry equal to `value`, which is infinity when omitted as on line 162; a repeated outer id does not add a key |
| ParkDistances.GetShortestPaths | py/park_distances.py:12-45 | The three nested loops return exactly `ShortestPaths`: the start table with every probe of every origin, park and point applied in loop order |
| ParkDistances.RelaxParks | py/park_distances.py:29-43 | The loop over park ids for one origin returns the table with the probes of every park's points applied, park by park |
| ParkDistances.RelaxPoints | py/park_distances.py:33-43 | The loop over the points of one park returns the table with one comparison and store applied per point, in order; a failed search offers infinity |
| ParkDistances.ShortestPaths | py/park_distances.py:12-45 | The update keeps every outer and inner key, adds none, and never raises an entry |
| ParkDistances.PointsOf | py/park_distances.py:30 | `park_points.loc[[park]]`: every point returned belongs to the park, and every point of the park is returned |
| ParkDistances.PointsOfMembers | py/park_distances.py:30 | A point is among those returned for a park if and only if it is in the frame with that park's id |
| ParkDistances.PointProbes | py/park_distances.py:33-39 | The point loop makes one probe per point, all for the current origin and park; `PointProbesAt` gives each one |
| ParkDistances.PointProbesAt | py/park_distances.py:33-39 | The n-th probe of the point loop is the search from the origin to the n-th point of the park, in frame order |
| ParkDistances.ParkProbes | py/park_distances.py:29-39 | Every probe of one origin's park loop is for that origin and a listed park; `ParkProbesSound` and `ParkProbesComplete` give exactly which |
| ParkDistances.Probes | py/park_distances.py:21-39 | Every probe of the three loops is for a listed park and for the index of one of the origins; `ProbesSound` and `ProbesComplete` give exactly which |
| ParkDistances.RelaxAll | py/park_distances.py:42-43 | Applying probes keeps the table's keys |
| ParkDistances.Relax | py/park_distances.py:42-43 | One comparison and store keeps the table's keys |
| ParkDistances.RelaxAllAppend | py/park_distances.py:21-43 | Applying two runs of probes one after the other is the same as applying their concatenation, so each loop level composes |
| ParkDistances.RelaxAllEntry | py/park_distances.py:42-43 | After any run of probes, each entry is the running minimum of its start value and the lengths offered to that entry, in order |
| ParkDistances.LengthsAtMembers | py/park_distances.py:42-43 | A length is offered to entry (k, q) if and only if some probe carries it for k and q |
| ParkDistances.ProbesCovered | py/park_distances.py:42 | When every (origin index, park id) pair has an entry, no probe of the loops reaches a missing key |
| ParkDistances.ProbesSound | py/park_distances.py:21-39 | Every probe comes from some origin, some listed park and some point of that park, and carries that search's outcome |
| ParkDistances.ProbesComplete | py/park_distances.py:21-39 | Every origin, listed park and point of that park gives a probe that carries that search's outcome |
| ParkDistances.ParkProbesSound | py/park_distances.py:29-39 | For one origin, every probe comes from a listed park and one of its points |
| ParkDistances.ParkProbesComplete | py/park_distances.py:29-39 | For one origin, every listed park and each of its points gives a probe |
| ParkDistances.PointProbesSound | py/park_distances.py:33-39 | For one origin and park, every probe comes from one of the points |
| ParkDistances.PointProbesComplete | py/park_distances.py:33-39 | For one origin and park, every point gives a probe |
| ParkDistances.CreatedTableFitsUpdate | py/park_distances.py:162-163 | A table built from the origins' indices and the park-point ids, with every park having a point, has an entry for every pair the update visits |
| ParkDistances.ShortestPathsIsMinimum | py/park_distances.py:21-43 | Each result entry is no larger than its start value and than the length of every search from an origin filed under its key to a point of its park, and equals the start value or one of those lengths |
| ParkDistances.UnreachableStaysInf | py/park_distances.py:35-43 | An entry that starts at infinity ends at infinity if and only if every search for it failed (or there was none) |
| ParkDistances.UntouchedEntriesKept | py/park_distances.py:21-43 | An entry whose key is no origin's index, or whose park is not listed, keeps its start value |
| ParkDistances.ShortestPathsIdempotent | py/park_distances.py:12-45 | Running the update again on its own result changes no entry |
| Census.Decimal | py/park_distances.py:58-59 | `str` of a non-negative integer: at least one character, all digits, and no leading zero unless the number is 0 |
| Census.DecimalRoundTrip | py/park_distances.py:58-59 | Reading back the decimal rendering of n gives n |
| Census.DecimalLength | py/park_distances.py:58-61 | The rendering of n has at most k digits exactly when n is below 10^k |
| Census.DecimalOfValue | py/park_distances.py:58-59 | A digit string without a leading zero is the rendering of the number it denotes |
| Census.PadLeft | py/park_distances.py:60-61 | `'{0:0>w}'.format`: the result is w characters long, or the string itself when it is longer; it ends with the string and is fill before it |
| Census.ZeroPad | py/park_distances.py:60-61 | `'{0:0>w}'.format(n)` is at least w characters and at least as long as `str(n)`; `ZeroPadValue` and `ZeroPadOfCode` pin its digits |
| Census.ZeroPadValue | py/park_distances.py:60-61 | The padded code is all digits, denotes the same number, and is exactly w long when the number is below 10^w |
| Census.ZeroPadOfCode | py/park_distances.py:60-61 | Padding the number of a w-digit code to width w gives that code back |
| Census.ZeroPadInjective | py/park_distances.py:60-61 | Different numbers have different padded codes |
| Census.ValueOfLeadingZeros | py/park_distances.py:60-61 | Leading zeros do not change the number a digit string denotes |
| Census.Prepare | py/park_distances.py:58-65 | The GEOID is the state, county, tract and block-group strings concatenated in that order, the county is at least 3 and the tract at least 6 characters, and the coordinates pass through; `PreparedCodes` and `GeoidRoundTrip` pin the codes |
| Census.PreparedCodes | py/park_distances.py:58-61 | Within the census widths the rewritten state, county, tract and block-group codes are 2, 3, 6 and 1 digits long and read back as the row's codes |
| Census.GeoidRoundTrip | py/park_distances.py:58-62 | For codes within their widths (a two-digit state), the 12-character GEOID splits back into the four codes |
| Census.GeoidInjective | py/park_distances.py:58-62 | For codes within their widths, distinct codes give distinct GEOIDs: equal GEOIDs mean equal codes |
| Census.ShortStateGeoid | py/park_distances.py:58-62 | The state code is not padded: a state code below 10 gives an 11-character GEOID |
| Census.CountyListed | py/park_distances.py:60-68 | With three-digit listed codes, a row's padded county is listed exactly when some listed code denotes its county number |
| Census.Kept | py/park_distances.py:68 | One row is kept, as its rewriting, exactly when its padded county code is listed, and is dropped otherwise |
| Census.GetBlockGroups | py/park_distances.py:58-68 | No more rows come out than go in, and every row kept has a listed county code |
| Census.GetBlockGroupsMembers | py/park_distances.py:58-68 | A block group is in the result if and only if it is the rewriting of some input row and its padded county is listed |
| Census.GetBlockGroupsAppend | py/park_distances.py:58-68 | The filter works row by row: filtering a concatenation is concatenating the filtered parts, which keeps the input order |

## Left out

- Progress output (lines 20-26 and 94-99) and its counters. They write to standard output and affect no result.
- The graph, `nx.shortest_path_length` and its exceptions: an oracle parameter. Any exception is `Failed`.
- Path lengths: floats in the source, natural numbers in the model. Float rounding and non-integer weights are not modelled. Every length is below `float("inf")` in both.
- Strict `<` (line 42): an equal length is not stored. In a value model an equal length is the same value, so the choice is not visible.
- In-place mutation of `ddict` and aliasing: the model returns the new table. The only caller reassigns the result.
- `park_points.loc[[park]]` raises `KeyError` for a park with no points: `GetShortestPaths` requires `Located`, and `PointsOf` would return no points.
- `ddict[bg.Index][park]` raises `KeyError` for a missing entry: `GetShortestPaths` requires `KeysPresent`. `CreatedTableFitsUpdate` shows that the table built on line 162 meets it.
- Pandas frames are sequences of rows. Only the columns the code reads are kept: the index, `node` and `id`, and the census codes and coordinates.
- `pd.read_csv` of the census URL: the rows are a parameter. Its code columns are parsed as integers, so they are natural numbers in the model.
- `astype(float)` on latitude and longitude (lines 64-65): the coordinates are reals and are passed through.
- `set_index('GEOID')` (line 69): the GEOID is a field of each block group. `GeoidInjective` shows that distinct codes within their widths give distinct GEOIDs. Two input rows with the same codes still give two block groups with the same GEOID, which `set_index` accepts; the model keeps both.
- `get_graph`, `find_node` and `parallel_find_node` (lines 74-119): they call into osmnx, numpy and multiprocessing, whose code is not part of this model.
- The `__main__` script (lines 121-163): file and pickle I/O and `sample`. Random sampling is left out. The two calls on lines 162-163 are related by `CreatedTableFitsUpdate`.
- ParkDistances.ShortestPaths: its own contract states only shape and monotonicity. The exact per-entry value is stated by `ShortestPathsIsMinimum` and `RelaxAllEntry`.
- Census.GetBlockGroups: its own contract states only the size bound and that the kept rows are listed. The membership characterisation is `GetBlockGroupsMembers`.
