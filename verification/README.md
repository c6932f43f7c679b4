# Forest harvest simulation engine — a Dafny model

This project models the simulation core of the Forest Management System
(`src/functions.php`). The core generates a synthetic 10 × 10-block forest of
50 000 trees from a fixed per-block distribution table. It computes each tree's
stem volume, decides which trees meet the felling criteria, fells them at random
angles, and marks the neighbours they damage as victims (stem damage) or kept
trees (crown damage). It then books production for the trees that leave the
forest and projects the standing trees 30 years ahead.

Modules, following the source's functions:

- `Catalog`: `getSpeciesNamesByGroup` and `getIsDipterocarpStatusBySpecies`, two lookups over the catalogue records.
- `Distribution`: `getTreeDistributionTable`, `getSpeciesGroupMap` and `generateRandomDiameter`. Also the expansion of the table into per-block templates.
- `Height`: `generateSuitableHeight`.
- `Shuffling`: PHP's `shuffle` (Fisher–Yates, one draw for each position from the last down to the second, so n − 1 draws for n items).
- `Generator`: `generateForestTrees`. The nested block loops, species choice, positions, diameters and heights, and the global tree counter.
- `Volume`: `calculateTreeVolume`.
- `Felling`: `determineFellingCriteria` and `getInitialTreeStatus`.
- `Damage`: `isTreeDamaged` and `simulateForestDamage`.
- `Projection`: `calculateProduction`, `applyDiameterIncrement` and `calculate30YearProjections`.
- `Simulation`: `runFullForestSimulation`, without its progress messages.
- `Forest`: the tree record and the status transitions shared by the passes.
- `Random`, `Rounding`, `Wrappers`: support for the above.

Units are integers:

- diameters in hundredths of a centimetre;
- heights in hundredths of a metre;
- volumes in ten-thousandths of a cubic metre (what `round(…, 4)` keeps);
- damage in hundredths of a percent.

The felling threshold is an integer in hundredths of a centimetre. Diameters are
whole hundredths, so `d > t` for a real threshold `t` is `d > floor(100·t)`.

Every call to `rand`, `array_rand` and `shuffle` draws from an explicit random
source `Rng`. That source is an arbitrary stream of raw values plus a read position.
`rand(lo, hi)` folds the next value into `[lo, hi]`, and `Random.RandReachable`
shows that every value of the range is produced by some stream. A run is
therefore a pure function of the catalogue, the threshold and the stream, and
every property below holds for every stream.

Two details of the damage model:

- `isTreeDamaged` compares `sqrt(dx² + dy²)` with 0 and 15. Here the squared distance is compared with 0 and 225, which is the same test on integer coordinates.
- The damage pass finds a cutter by its `tree_id`. Ids carry the global counter, so generated ids are distinct (`Simulation.SerialsMakeIdsUnique`). The damage lemmas assume distinct ids.

## Model

| member | source | states |
|---|---|---|
| Catalog.NamesInGroupMembers | src/functions.php:63-73 | A name is listed under a group exactly when some catalogue record of that group carries it. |
| Catalog.SpeciesNamesByGroupEntry | src/functions.php:63-73 | A group has an entry exactly when some record belongs to it. The entry lists that group's names in catalogue order, duplicates kept. |
| Catalog.AvailableIsNamesInGroup | src/functions.php:212 | The species available to a group (`?? []`) are exactly the group's catalogue names, and empty for a group with no records. |
| Catalog.DipterocarpByNameKeys | src/functions.php:80-86 | A name has a dipterocarp flag exactly when some record carries that name. |
| Catalog.DipterocarpIsLastRecord | src/functions.php:82-84 | For a name listed more than once, the flag of its last record wins. |
| Distribution.RandomDiameter | src/functions.php:128-143 | A drawn diameter lies in its class's range (5.00–15.00, 15.01–30.00, 30.01–45.00, 45.01–60.00, 60.01–100.00 cm), classifies back to that class, and uses one draw. |
| Distribution.ClassesPartition | src/functions.php:130-139 | The five class ranges partition 5.00–100.00 cm: each diameter lies in exactly one class. |
| Distribution.SearchFrom | src/functions.php:187 | `array_search`: the result is the 1-based position of the first match, or 0 exactly when the name is absent. |
| Distribution.TableRowsHaveGroupIds | src/functions.php:185-187 | Each table row's group name is found in the group map at the row's own position, so row k gets group id k + 1. |
| Distribution.ExpandCounts | src/functions.php:184-199 | Expanding any table gives, for each (group id, class), exactly the table's count of templates. |
| Distribution.ExpandLength | src/functions.php:184-199 | Expanding any table gives as many templates as the table's class counts add up to. |
| Distribution.TableCountOfGroup | src/functions.php:93-119 | In the real table and group map, group k + 1 receives exactly row k's count of each class. |
| Distribution.TableTotalIs500 | src/functions.php:93-103 | The class counts of the table add up to 500 trees per block. |
| Distribution.DeclaredTotalOfGroup1IsNotItsSum | src/functions.php:95 | Group 1's 'Total' column says 44 while its classes add up to 35; generation uses the classes. |
| Height.GenerateHeight | src/functions.php:152-164 | A height is the bracket's drawn offset plus the bracket's slope times the diameter, rounded to hundredths. It lies within the bracket's bounds and uses one draw. |
| Height.HeightReachable | src/functions.php:152-164 | Every height in the model's range is produced by some random source. |
| Height.HeightAtLeastFiveMetres | src/functions.php:153-163 | Any tree with a non-negative diameter gets a height of at least 5 m. |
| Shuffling.ShufflePermutes | src/functions.php:202 | `shuffle` returns a permutation of the templates. |
| Generator.PickSpecies | src/functions.php:211-221 | A group with no species gets `UNKNOWN_SPECIES`, flag 0 and no draw. Otherwise one draw picks a name of the group, flagged by the lookup or 0 when the name is missing from it. |
| Generator.PlantTree | src/functions.php:204-254 | A tree lies in its block at a position in 1..100, has a diameter in its template's class, a height the model can give it, and its template's group and class. Its id repeats its block and position. |
| Generator.GenerateBlock | src/functions.php:184-255 | A block has as many trees as it has templates, all in that block, each well placed and following the species rule. |
| Generator.GenerateBlockCount | src/functions.php:184-255 | Each template gives one tree: a block holds, of every (group, class) template, exactly as many trees as the template list has copies of it, and no other block holds any of them. |
| Generator.GridOrderAt | src/functions.php:180-181 | The k-th block visited is row k / 10 + 1, column k % 10 + 1. |
| Generator.GridOrderDistinct | src/functions.php:180-181 | The nested loops visit no block twice. |
| Generator.GridOrderCovers | src/functions.php:180-181 | The nested loops visit every block of the 10 × 10 grid. |
| Generator.GenerateForestTrees | src/functions.php:173-259 | Whatever the draws, generation gives 50 000 trees, numbered 1, 2, … in generation order, each well placed and following the species rule. |
| Generator.GenerationFollowsTable | src/functions.php:180-202 | Every block holds exactly table[group][class] trees of each group and diameter class, whatever the draws. |
| Volume.CalculateTreeVolume | src/functions.php:271-300 | The volume is never negative. It is 0 when the formula is negative, and otherwise the formula rounded to 4 decimals. |
| Volume.VolumeIgnoresHeightBelow45cm | src/functions.php:276-298 | Below 45 cm the volume does not depend on the height. |
| Volume.VolumeGrowsWithHeight | src/functions.php:281-293 | From 45 cm on, a taller stem never has less volume. |
| Volume.VolumeGrowsWithDiameter | src/functions.php:276-299 | Within one formula, a thicker tree of the same height never has less volume. |
| Volume.VolumeExampleNonDip20cm | src/functions.php:288-289 | A non-dipterocarp of 20 cm has 0.142 m³, whatever its height. |
| Volume.VolumeExampleDip50cm | src/functions.php:281-282 | A dipterocarp of 50 cm and 20 m has 3.11425 m³, which rounds to 3.1143. |
| Volume.VolumeDropsAt30cm | src/functions.php:288-295 | The non-dipterocarp formulas do not meet at 30 cm: 29.99 cm gives 0.2818 m³ and 30.00 cm gives 0.2715 m³. |
| Felling.DetermineFellingCriteria | src/functions.php:311-318 | The criteria are met exactly when the group is 1, 2, 3 or 5 and the diameter is strictly above the threshold. |
| Felling.InitialStatus | src/functions.php:326-332 | A tree is cut exactly when the criteria are met, and stands exactly when they are not. |
| Felling.CriteriaMonotoneInDiameter | src/functions.php:311-318 | A tree that meets the criteria still meets them when thicker. |
| Felling.CriteriaAntitoneInThreshold | src/functions.php:311-318 | Lowering the threshold never takes a tree out of the criteria. |
| Felling.CriteriaExamples | src/functions.php:312-313 | At the default 45 cm: 45.00 cm is not met and 45.01 cm is. A group-4 tree is never met. |
| Damage.FallQuadrant | src/functions.php:354-374 | A fall sweeps a quadrant exactly for angles in [0, 360], and each quadrant is a pair of signs. |
| Damage.IsTreeDamaged | src/functions.php:345-384 | Stem damage happens exactly in the open square of side round(height) + 5 on the fall's side. Crown damage happens exactly within 15 units, off the cutter's own position, and without stem damage. The two never occur together. |
| Damage.NoDamageAtCutter | src/functions.php:379 | A tree at the cutter's own position is never damaged. |
| Damage.DrawnAnglesSweepAQuadrant | src/functions.php:403 | Every angle `rand(1, 360)` can give falls into one of the four quadrants, so every felled tree has a stem zone. |
| Damage.CrownWithinReach | src/functions.php:378-381 | Crown damage never reaches more than 15 units along either axis. |
| Damage.StemZoneGrowsWithHeight | src/functions.php:349-351 | A taller cutter's stem zone covers a shorter cutter's. |
| Damage.DamageTarget | src/functions.php:421-447 | A non-target is untouched. A stem hit makes a victim with 100 % stem damage and no crown damage. A crown hit on a non-victim keeps the tree with one fresh roll in [10 %, 50 %], drawn from the random source, and no stem damage. A miss clears a stand tree's damage and leaves a kept tree or a victim exactly as it was, as does a crown hit on a victim. Status only moves up stand < keep < victim. |
| Damage.DamageAll | src/functions.php:418-449 | The inner loop checks every tree, in order, against one fall: each tree's status changes as its own check says, status only moves up, and angles and cut trees are untouched. |
| Damage.DamageAllValues | src/functions.php:429-446 | In the inner loop each tree gets the damage values its own check gives: 100 % stem damage on a stem hit, a roll in [10 %, 50 %] on a crown hit of a non-victim, cleared on a stand tree that is missed, unchanged otherwise. |
| Damage.SetAngle | src/functions.php:405-410 | The angle is recorded on the first tree with the cutter's id only. |
| Damage.CutterIndices | src/functions.php:397-399 | The cutters are exactly the trees whose status is cut, in order, each once. |
| Damage.CutterPass | src/functions.php:401-450 | One iteration of the outer loop draws an angle in [1, 360], records it on the cutter, and checks every tree against that fall. |
| Damage.ApplyCutters | src/functions.php:401-451 | The outer loop keeps the number of trees and changes only status, damage and angle. Statuses only move up, and consistent damage stays consistent. |
| Damage.ApplyCuttersSplit | src/functions.php:401-451 | Running the outer loop over a list of cutters is running it over the first cutters and then, from where that stopped, over the rest. |
| Damage.ApplyCuttersFrame | src/functions.php:441-446 | A kept tree or a victim that no cutter's fall reaches, neither in the stem zone nor at the crown, ends exactly as it was, damage values included. |
| Damage.FirstCrownRollWins | src/functions.php:436-446 | If the first cutter's fall reaches the crown of a tree that ends kept, and no later fall reaches that crown, the tree ends as the first pass left it, with that pass's roll. |
| Damage.LastCrownRollWins | src/functions.php:401-451 | A tree that ends kept carries the crown roll of the last cutter whose fall reaches its crown: it ends as that cutter's pass left it, kept, with no stem damage and a roll in [10 %, 50 %], whatever earlier falls recorded. |
| Damage.SimulateForestDamage | src/functions.php:393-454 | The pass keeps the number and order of trees and changes only status, damage and angle. Statuses only move up the damage order, and consistent damage fields stay consistent. |
| Damage.ApplyCuttersAngle | src/functions.php:401-411 | Every cutter gets an angle in [1, 360]; other trees' angles are unchanged. |
| Damage.ApplyCuttersStatus | src/functions.php:418-447 | A non-cut tree ends a victim exactly when it was one or some cutter stem-hits it. It ends kept exactly when it is no victim and was kept or some cutter crown-hits it. |
| Damage.ApplyCuttersUntouched | src/functions.php:418-424 | A tree that is not a cutter and has no cutter in its block is left exactly as it was. |
| Damage.DamageOutcome | src/functions.php:393-454 | Tree by tree: cut trees get an angle in [1, 360] and others keep theirs. Victim iff it was one or a cutter's fall stem-hits it. Keep iff no victim and it was kept or a fall reaches its crown. Blocks without cutters are untouched. |
| Projection.TreeProduction | src/functions.php:463-470 | Production is set exactly for cut and victim trees, equals the tree's volume, and nothing else changes. |
| Projection.CalculateProduction | src/functions.php:462-473 | Over all trees in order: production exactly for cut and victim trees, at full volume; nothing else changes. |
| Projection.ProductionIdempotent | src/functions.php:462-473 | Computing production twice gives the same trees as once. |
| Projection.ApplyDiameterIncrement | src/functions.php:481-497 | The diameter never decreases. It is unchanged exactly below 5 cm, and grows by 0.4 to 0.7 cm otherwise. |
| Projection.IncrementReordersAt30cm | src/functions.php:485-488 | Growth is not order-preserving: 29.99 cm grows past 30.00 cm. |
| Projection.Grow | src/functions.php:513-515 | After n years, a diameter below 5 cm is unchanged, and any other has grown by 0.4·n to 0.7·n cm. |
| Projection.ThirtyYearGrowth | src/functions.php:513-516 | A tree of 5 cm or more grows by 12 to 21 cm over the 30 years. |
| Projection.GrowNeverShrinks | src/functions.php:513-515 | More years of growth never give a thinner tree. |
| Projection.ProjectTree | src/functions.php:509-535 | A stand or keep tree gets d30 = 30 years of growth and a volume30 at some height the model can give d30. prod30 is set exactly when d30 meets the criteria and then equals volume30. A cut or victim tree gets none of the three. Only the projection fields change. |
| Projection.Calculate30YearProjections | src/functions.php:507-539 | The same for every tree, in order, with one height draw per standing tree. |
| Projection.ProjectedHarvestWithin12cm | src/functions.php:513-526 | A standing tree of an eligible group, 5 cm or thicker and within 12 cm of the threshold, always carries a 30-year production. |
| Projection.NoProjectedHarvestOutsideGroups | src/functions.php:525-528 | A tree outside groups 1, 2, 3, 5 never carries a 30-year production. |
| Simulation.InitialTree | src/functions.php:562-567 | A tree's initial volume is non-negative. It is cut exactly when its group is eligible and its diameter exceeds the threshold, and otherwise stands. No damage, angle, production or projection is set yet. |
| Simulation.InitialTrees | src/functions.php:561-568 | The initial calculations cover every generated tree, in order. |
| Simulation.SerialsMakeIdsUnique | src/functions.php:205-230 | Trees numbered 1, 2, … in order have pairwise distinct ids. |
| Simulation.Pipeline | src/functions.php:559-586 | The passes keep every generated tree, in order. |
| Simulation.PipelineAt | src/functions.php:559-586 | Each output tree keeps its generated record, has the criteria at the threshold, and is cut iff they are met. Its damage fields agree with its status, it has production iff cut or victim, and its projection is as above. |
| Simulation.DamageStageAt | src/functions.php:559-573 | After the damage pass a tree keeps its record and criteria, is cut exactly when the criteria are met, and its damage fields agree with its status. |
| Simulation.LaterStagesAt | src/functions.php:575-583 | Production and projection keep a tree's record, criteria, status, volume and damage, set production exactly for cut and victim trees, and add its projection. |
| Simulation.TraceAt | src/functions.php:571-583 | An output tree carries the status, angle and damage the damage pass gave it, and is cut iff it started cut. |
| Simulation.StemCausesAgree | src/functions.php:429-433 | Stem hits read off the final output are exactly those of the damage pass. |
| Simulation.CrownCausesAgree | src/functions.php:429-440 | Crown hits read off the final output are exactly those of the damage pass. |
| Simulation.PipelineOutcome | src/functions.php:571-586 | From the output alone: a tree meeting the criteria has an angle in [1, 360]. Any other tree is a victim iff some felled tree's fall stem-hits it, kept iff not that and some fall reaches its crown, and stands otherwise. A block with no eligible tree stands undamaged. |
| Simulation.RunFullForestSimulation | src/functions.php:549-587 | A full run yields exactly 50 000 trees. |
| Simulation.RunIsPipeline | src/functions.php:549-587 | A full run generates 50 000 trees numbered 1, 2, … in order, and then applies the passes to them, continuing the same random source. |
| Simulation.RunKeepsEveryTree | src/functions.php:549-587 | A full run returns the 50 000 generated trees in generation order, each with its generated record. |

## Left out

- Reading the species file (`loadSpeciesData`) is not part of this model. The catalogue records are an input.
- The progress messages `runFullForestSimulation` echoes are not modelled.
- PHP's random generator is replaced by an arbitrary stream of draws. The model proves properties for every stream and says nothing about the distribution of the draws.
- Floating point is not modelled. Diameters, heights, volumes and damage are exact integers in the units above, and the volume polynomial is evaluated in exact reals before rounding.
- Projection.Grow: does not model the float drift of thirty additions of 0.4–0.7. In PHP a drifted value such as 14.999999 could fall into the lower increment bracket; the model adds exact hundredths.
- The `tree_id` string (`sprintf("T%02d%02d%02d%02d_%05d", …)`) is kept as its parts (block, position, serial), not rendered.
- The `default` branch of `generateRandomDiameter` (returns 0) is unreachable: the diameter class is a closed datatype of the five classes the generator uses.
- `null` and `'-'` both become `None`. The placeholder values the generator writes (`0.0`, `''`) are not modelled, because the next pass overwrites them.
- `(bool)$tree['is_dipterocarp']` is read as "flag ≠ 0" on an integer flag. PHP's string-to-boolean casts of CSV text are not modelled.
- Catalogue columns the engine does not read are not part of the record.
- Simulation.RunFullForestSimulation: its contract states only the number of trees. The per-tree facts (criteria, damage, production, projection) are stated by Simulation.PipelineAt and Simulation.PipelineOutcome over the generic pipeline. The full run is that pipeline applied to the generated forest (Simulation.RunIsPipeline, Simulation.RunKeepsEveryTree).
- Distribution.RandomDiameter: states the range of the draw, not that it is uniform, since the random source is abstract.
