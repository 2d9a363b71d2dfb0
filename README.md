# Compartment tree parameters, modelled in Dafny

This project models the parameter layer of `CompartmentTree` in NEAT
(`neat/trees/compartmenttree.py`). A compartment tree is a tree of compartments.
Each compartment carries three parameters:

- a capacitance `ca`;
- a leak conductance `g_l`;
- a coupling conductance `g_c` to its parent.

The model covers the operations that turn these parameters into matrices and
back:

- the conductance matrix and the per-frequency system matrix;
- the flat parameter vectors and their write-back onto the nodes;
- the structure tensors that map a parameter vector to a matrix;
- the two least-squares fits `computeG` and `computeC`, which use those tensors.

The tree's shape is a sequence `parent` in iteration order, with
`parent[0] == -1` and `0 <= parent[c] < c` for every other node. Numbers are
mathematical reals, and complex numbers are a datatype of two reals.

Files:

- `topology.dfy` (`Topology`): tree shapes, node parameters, the slot layout
  of the conductance vector (slot 0 is the root's leak; node `c` has its
  coupling in slot `2c-1` and its leak in slot `2c`).
- `conductance.dfy` (`Conductance`): the conductance matrix as a value, the
  step the builder's loop takes, and its laws: row sums, sparsity, symmetry.
- `system.dfy` (`SystemMatrix`): the system matrix at one frequency.
- `conductance_fit.dfy` (`ConductanceFit`): the conductance vector, its
  write-back (whole, or stopped after any number of slots), the structure
  tensor, the reconstruction identity, the meaning of an exact fit, and the
  fact that an exact fit recovers the tree it was computed from.
- `capacitance_fit.dfy` (`CapacitanceFit`): the same for capacitances, over
  complex frequencies.
- `frequencies.dfy` (`Frequencies`): the lookup of the zero frequency that
  `computeGC` documents.
- `compartment_tree.dfy` (`CompartmentTrees`): the nodes and the tree as
  classes whose methods fill arrays and overwrite node fields, each proved
  against the value-level definitions above.
- `wrappers.dfy` (`Wrappers`): the `Option` type, used for the optional
  frequencies of `calcSystemMatrix` and for the steady-state lookup.
- `linalg.dfy`, `complex.dfy`: sums, dot products, matrix products and
  row-major reshaping, over reals and complex numbers. `RowMajor(b, r, w)`
  is the position `b*w + r` of entry `r` of block `b` (`RowMajorProduct`),
  written as repeated addition.

## Model

| member | source | states |
|---|---|---|
| CompartmentTrees.CompartmentNode.constructor | neat/trees/compartmenttree.py:31-36 | a new node has the given index and parameters, by default capacitance 1, coupling 0 and leak 0.01 |
| CompartmentTrees.CompartmentTree.constructor | neat/trees/compartmenttree.py:49-58 | a tree built from a shape and per-node parameters is well formed, node `c` has index `c`, and the nodes carry exactly the given parameters |
| CompartmentTrees.CompartmentTree.CalcConductanceMatrix | neat/trees/compartmenttree.py:63-81 | the array filled node by node equals the conductance matrix of the tree's current parameters |
| Conductance.ConductanceMatrix | neat/trees/compartmenttree.py:63-81 | the conductance matrix is `n` by `n` and symmetric |
| Conductance.AccumulateStep | neat/trees/compartmenttree.py:73-80 | visiting one node adds its leak and coupling to its own diagonal cell and, for a non-root node, its coupling to the parent's diagonal cell and minus its coupling to the two cells joining it to the parent |
| Conductance.RowSum | neat/trees/compartmenttree.py:72-81 | every row sums to that node's leak conductance, plus the root's own coupling on row 0 |
| Conductance.OffDiagonal | neat/trees/compartmenttree.py:76-80 | an off-diagonal cell is minus the child's coupling when one node is the other's parent, and zero otherwise |
| Conductance.Symmetric | neat/trees/compartmenttree.py:72-81 | the conductance matrix is symmetric |
| CompartmentTrees.CompartmentTree.CalcSystemMatrix | neat/trees/compartmenttree.py:83-107 | without frequencies the result is the conductance matrix; with them it has one slice per frequency, and each slice is the system matrix at that frequency |
| SystemMatrix.SystemSlice | neat/trees/compartmenttree.py:100-106 | the system matrix at one frequency is `n` by `n` and symmetric |
| SystemMatrix.SystemCells | neat/trees/compartmenttree.py:100-106 | a system cell off the diagonal is the conductance cell; on the diagonal it is the conductance cell plus the frequency times the node's capacitance |
| SystemMatrix.SystemAtZero | neat/trees/compartmenttree.py:100-106 | at frequency zero the system matrix is the conductance matrix taken as complex |
| SystemMatrix.SystemSymmetric | neat/trees/compartmenttree.py:103-106 | every system matrix is symmetric |
| CompartmentTrees.CompartmentTree.ToVecG | neat/trees/compartmenttree.py:149-156 | the list built node by node is the conductance vector of the current parameters |
| ConductanceFit.VecG | neat/trees/compartmenttree.py:149-156 | the conductance vector of an `n`-node tree has `2n-1` entries (none for the empty tree) |
| ConductanceFit.VecGSlots | neat/trees/compartmenttree.py:154-155 | node `c`'s coupling is in slot `2c-1` and its leak in slot `2c` |
| CompartmentTrees.CompartmentTree.ToStructureTensorG | neat/trees/compartmenttree.py:130-147 | the array is `n` by `n` by `2n-1` and equals the structure tensor: one unit leak per node, and one unit coupling pattern per non-root node |
| CompartmentTrees.AddNodeSlots | neat/trees/compartmenttree.py:138-146 | the five updates of one non-root node change each cell by exactly that node's unit coupling and unit leak pattern |
| CompartmentTrees.NodeSlotDeltaAgrees | neat/trees/compartmenttree.py:138-146 | the change one non-root node's updates make is the structure tensor's entry on that node's two slots and zero on every other slot |
| CompartmentTrees.CompartmentTree.ToTreeG | neat/trees/compartmenttree.py:158-164 | a long enough vector overwrites every node's leak and every non-root node's coupling from its slots; a short one stops at the first missing slot with every slot before it written, so a node whose leak slot is missing keeps its new coupling; the result says which case happened |
| CompartmentTrees.CompartmentTree.WriteNodeG | neat/trees/compartmenttree.py:160-164 | one node's pass writes its leak (root) or its coupling and then its leak, each only if its slot exists, and reports whether both slots were there |
| ConductanceFit.UnpackG | neat/trees/compartmenttree.py:158-164 | the write-back leaves every capacitance and the root's coupling unchanged |
| ConductanceFit.UnpackGPrefix | neat/trees/compartmenttree.py:158-164 | writing the first `k` slots in order leaves every capacitance, the root's coupling and every node whose slots all lie at or past `k` unchanged |
| ConductanceFit.UnpackGPrefixCell | neat/trees/compartmenttree.py:158-164 | after the first `k` slots, node `c`'s coupling and leak hold slots `2c-1` and `2c` if those lie below `k` and their old values otherwise (the root's leak likewise from slot 0) |
| ConductanceFit.UnpackGPrefixAll | neat/trees/compartmenttree.py:158-164 | writing all `2n-1` slots in order is the full write-back |
| ConductanceFit.PackUnpackPrefix | neat/trees/compartmenttree.py:149-164 | after a partial write-back the vector read from the nodes is the written slots followed by the old vector's remaining slots |
| ConductanceFit.VecGSetCoupling | neat/trees/compartmenttree.py:154-155 | setting one non-root node's coupling changes slot `2c-1` of the conductance vector and no other slot |
| ConductanceFit.VecGSetLeak | neat/trees/compartmenttree.py:152-155 | setting one node's leak changes its leak slot (`0` for the root, `2c` otherwise) and no other slot |
| ConductanceFit.PackUnpack | neat/trees/compartmenttree.py:149-164 | reading the vector back after a write-back gives the written vector (its first `2n-1` entries) |
| ConductanceFit.UnpackPack | neat/trees/compartmenttree.py:149-164 | writing back the vector read from the nodes leaves the nodes unchanged |
| ConductanceFit.VecGAgree | neat/trees/compartmenttree.py:149-156 | two parameter lists give the same conductance vector exactly when they agree on every leak and every non-root coupling |
| ConductanceFit.ClearRootCoupling | neat/trees/compartmenttree.py:27-29 | the root's coupling, which the node documents as ignored, is set to zero and nothing else changes |
| ConductanceFit.RootCouplingCell | neat/trees/compartmenttree.py:75 | the root's coupling changes cell `(0, 0)` of the conductance matrix by its value and no other cell |
| ConductanceFit.StructureTensor | neat/trees/compartmenttree.py:130-147 | the conductance structure tensor is `n` by `n` by `2n-1` |
| ConductanceFit.StructureSymmetric | neat/trees/compartmenttree.py:138-146 | every slot of the structure tensor is a symmetric matrix, nonzero only on the diagonal and on the cells joining a node to its parent |
| ConductanceFit.Reconstruct | neat/trees/compartmenttree.py:130-147 | the matrix a vector stands for through the structure tensor is `n` by `n` and symmetric |
| ConductanceFit.Reconstruction | neat/trees/compartmenttree.py:130-156 | the sum over slots of vector entry times structure-tensor slice is the conductance matrix with the root's coupling cleared |
| ConductanceFit.ReconstructionIff | neat/trees/compartmenttree.py:75 | that sum is the builder's own conductance matrix exactly when the root's coupling is zero |
| ConductanceFit.RootCouplingCounterexample | neat/trees/compartmenttree.py:75 | a single root with coupling 1 and leak 0 has conductance matrix `[[1]]`, while its vector reconstructs `[[0]]` |
| ConductanceFit.ConductanceDetermines | neat/trees/compartmenttree.py:72-81 | two trees with the same root coupling and the same conductance matrix have the same leaks and the same non-root couplings |
| ConductanceFit.ReconstructInjective | neat/trees/compartmenttree.py:130-156 | two conductance vectors reconstruct the same matrix exactly when they are equal |
| ConductanceFit.Features | neat/trees/compartmenttree.py:120-121 | the feature tensor `einsum('ij,jkl->ikl', z, S)` is `n` by `n` by the number of slots |
| ConductanceFit.FeatureMatrix | neat/trees/compartmenttree.py:120-122 | the feature matrix has `n*n` rows of one entry per slot, and row `i*n + k` is feature row `(i, k)` |
| ConductanceFit.TargetVector | neat/trees/compartmenttree.py:123 | the target vector has `n*n` entries, and entry `i*n + k` is 1 when `i == k` and 0 otherwise |
| ConductanceFit.FeatureRow | neat/trees/compartmenttree.py:120-122 | row `(i, k)` of the feature matrix, applied to a vector, is cell `(i, k)` of `z` times the matrix that the vector reconstructs |
| ConductanceFit.FitExact | neat/trees/compartmenttree.py:118-125 | a vector solves the fitting system exactly if and only if `z` times the matrix it reconstructs is the identity |
| ConductanceFit.FitWriteBackAnyRoot | neat/trees/compartmenttree.py:118-128 | a vector solves the fitting system exactly if and only if, after its write-back, `z` times the conductance matrix with the root's coupling cleared is the identity |
| ConductanceFit.FitWriteBack | neat/trees/compartmenttree.py:118-128 | when the root's coupling is zero, a vector solves the fitting system exactly if and only if, after its write-back, `z` times the tree's conductance matrix is the identity |
| ConductanceFit.FitIdentifies | neat/trees/compartmenttree.py:109-128 | when `z` is the two-sided inverse of a tree's conductance matrix (root coupling cleared), a vector solves the fitting system exactly if and only if it is that tree's conductance vector |
| ConductanceFit.FitRecovers | neat/trees/compartmenttree.py:109-128 | in the same case, a vector solves the fitting system exactly if and only if its write-back restores every leak and every non-root coupling of that tree |
| CompartmentTrees.CompartmentTree.ComputeG | neat/trees/compartmenttree.py:109-128 | the nodes end up with the solver's answer written back; that answer is exact if and only if `z` times the new conductance matrix, root coupling cleared, is the identity; when the root's coupling was zero, the same holds for the new conductance matrix itself |
| CapacitanceFit.StructureTensorC | neat/trees/compartmenttree.py:197-204 | the capacitance structure tensor has one `n` by `n` by `n` block per frequency |
| CompartmentTrees.CompartmentTree.ToStructureTensorC | neat/trees/compartmenttree.py:197-204 | the array is zero except at `(o, c, c, c)`, which holds frequency `o`, for every node `c` |
| CapacitanceFit.VecC | neat/trees/compartmenttree.py:206-207 | the capacitance vector has one entry per node, node `c`'s capacitance in slot `c` |
| CapacitanceFit.UnpackC | neat/trees/compartmenttree.py:209-211 | the capacitance write-back leaves every coupling and leak unchanged |
| CapacitanceFit.UnpackCUpTo | neat/trees/compartmenttree.py:209-211 | a write-back that stops before node `m` leaves nodes from `m` on and all conductances unchanged, and one that reaches the end is the full write-back |
| CompartmentTrees.CompartmentTree.ToTreeC | neat/trees/compartmenttree.py:209-211 | a long enough vector overwrites every capacitance; a short one stops at the first node without a slot, with the nodes before it written; the result says which case happened |
| CapacitanceFit.PackUnpackC | neat/trees/compartmenttree.py:206-211 | reading the capacitances back after a write-back gives the written vector |
| CapacitanceFit.UnpackPackC | neat/trees/compartmenttree.py:206-211 | writing back the capacitances read from the nodes leaves the nodes unchanged |
| CapacitanceFit.ReconstructionC | neat/trees/compartmenttree.py:197-207 | the conductance cell plus the capacitance vector applied to the structure tensor at frequency `o` is the system matrix cell at that frequency |
| CapacitanceFit.FeaturesC | neat/trees/compartmenttree.py:183 | the feature tensor `einsum('oij,ojkl->oikl', zf, S)` has one `n` by `n` by `n` block per frequency |
| CapacitanceFit.FeatureMatrixC | neat/trees/compartmenttree.py:183-185 | the feature matrix has one row per frequency and cell, `n` entries each, and row `(o*n + i)*n + k` is feature row `(o, i, k)` |
| CapacitanceFit.TargetC | neat/trees/compartmenttree.py:187-189 | the target tensor has one `n` by `n` block per frequency |
| CapacitanceFit.TargetVectorC | neat/trees/compartmenttree.py:187-190 | the target vector has one entry per frequency and cell, and entry `(o*n + i)*n + k` is target cell `(o, i, k)` |
| CapacitanceFit.FeatureCellC | neat/trees/compartmenttree.py:181-185 | feature cell `(o, i, k, l)` is the impedance cell `(i, k)` times frequency `o` when `l == k`, and zero otherwise |
| CapacitanceFit.FeatureRowC | neat/trees/compartmenttree.py:183-185 | feature row `(o, i, k)` applied to the capacitances is the impedance cell times the frequency times capacitance `k` |
| CapacitanceFit.ProductCellC | neat/trees/compartmenttree.py:187-189 | a cell of the impedance matrix times the system matrix is its conductance part plus its capacitive part |
| CapacitanceFit.FeatureMatrixApply | neat/trees/compartmenttree.py:183-185 | applying the reshaped feature matrix is reshaping the per-frequency applied blocks |
| CapacitanceFit.CellIffC | neat/trees/compartmenttree.py:187-190 | a fitted cell equals its target cell exactly when the matching cell of impedance times system matrix is the identity's |
| CapacitanceFit.SliceIffC | neat/trees/compartmenttree.py:181-190 | one frequency's block meets its target exactly when impedance times system matrix at that frequency is the identity |
| CapacitanceFit.FitExactC | neat/trees/compartmenttree.py:181-192 | a capacitance vector solves the fitting system exactly if and only if, at every frequency, the impedance matrix times the system matrix with those capacitances is the identity |
| CapacitanceFit.RealParts | neat/trees/compartmenttree.py:193 | `.real` keeps one entry per solver entry, its real part |
| CapacitanceFit.LiftRealParts | neat/trees/compartmenttree.py:193 | taking real parts undoes lifting to complex, and lifting undoes taking real parts exactly when no entry has an imaginary part |
| CompartmentTrees.CompartmentTree.ComputeC | neat/trees/compartmenttree.py:166-195 | the nodes end up with the real parts of the solver's answer as capacitances; when that answer is real, it is exact if and only if every impedance matrix times the new system matrix at its frequency is the identity |
| CapacitanceFit.ConductanceOfUnpackC | neat/trees/compartmenttree.py:209-211 | writing capacitances back leaves the conductance matrix unchanged |
| CapacitanceFit.SystemDetermined | neat/trees/compartmenttree.py:100-106 | two parameter assignments with the same conductance matrix and the same capacitances have the same system matrix at every frequency |
| CapacitanceFit.CapacitanceAtC | neat/trees/compartmenttree.py:181-195 | when a tree's impedance matrix at a nonzero frequency is the two-sided inverse of its system matrix, a capacitance vector that makes the fitted system matrix at that frequency invert the impedance matrix has that tree's capacitance in every slot |
| CapacitanceFit.FitIdentifiesC | neat/trees/compartmenttree.py:166-207 | when every impedance matrix is the two-sided inverse of a tree's system matrix at its frequency, the conductances agree with that tree, and some frequency is nonzero, a capacitance vector solves the fitting system exactly if and only if it is that tree's capacitance vector |
| CapacitanceFit.FitRecoversC | neat/trees/compartmenttree.py:166-211 | in the same case, a capacitance vector solves the fitting system exactly if and only if its write-back restores every capacitance of that tree |
| CapacitanceFit.FitUndeterminedC | neat/trees/compartmenttree.py:166-192 | when every frequency is zero, any two capacitance vectors are equally exact, so the fit cannot tell capacitances apart |
| Frequencies.ZeroFrequenciesUpTo | neat/trees/compartmenttree.py:241 | the indices found are increasing, all of near-zero frequencies (modulus below `1e-12`), and include every near-zero frequency |
| Frequencies.SteadyStateIndex | neat/trees/compartmenttree.py:226-244 | there is no steady-state index exactly when no frequency is near zero; otherwise it is the first near-zero frequency |

## Left out

- The least-squares solver (`scipy.linalg.lstsq`) is a parameter of `ComputeG` and `ComputeC`. The model assumes only that its answer to the one system it is given has one entry per parameter slot. What it minimises is not modelled, so only exact solutions are characterised.
- ComputeG: requires the solver's answer to have exactly `2n-1` entries. A shorter answer makes `_toTreeG` raise `IndexError` part-way through the write-back, and a longer one has its extra entries ignored; both cases are modelled by `ToTreeG` on its own, not by `ComputeG`.
- ComputeG: requires `z` to be `n` by `n`. The source raises on a mis-shaped `z`: in `np.einsum` when its column count is wrong, and in `la.lstsq` when only its row count is wrong, because the feature matrix then has `m*n` rows against a target of `n*n` entries. That error path is not modelled.
- ComputeC: requires the solver's answer to have exactly `n` entries, as for `ComputeG`; the exactness statement covers only a real answer, because `.real` drops the imaginary part.
- ComputeC: when every frequency is zero, the capacitances do not enter the fitting system, so they are not recovered; `CapacitanceFit.FitUndeterminedC` states this, and `FitIdentifiesC` needs one nonzero frequency.
- ComputeC: requires one `n` by `n` impedance matrix per frequency. The source raises on a mis-shaped `zf`: in `np.einsum` when its column count is wrong, and otherwise in the subtraction from `np.eye(n)` (a broadcast error) or the reshape that builds the target vector. That error path is not modelled.
- ComputeG: takes the steady-state impedance matrix as real, although its docstring says complex; complex input is not modelled.
- Floating point is not modelled: all arithmetic is on mathematical reals, so round-off in the `+=` updates and in the solver is not captured.
- `calcImpedanceMatrix` is a matrix inverse (`np.linalg.inv`) of the system matrix; it is left out.
- `computeGC` reads an undefined name `kwargs`, so as written it fails on every call. Also, `np.where` with no match gives an empty index array, which raises no `IndexError`, so the documented `ValueError` cannot happen. Only the documented zero-frequency lookup is modelled (`Frequencies.SteadyStateIndex`), not a run of `computeGC`.
- `computeGC_` and its helpers are left out.
- `__str__` (string formatting) is left out.
- The `STree` container is replaced by the `parent` sequence, under these assumptions:
  - iteration visits node `c` as the `c`-th node;
  - node `c` has index `c`;
  - every parent comes before its children.
  Under these assumptions, the source's `node.index` and its `enumerate` position coincide. Trees that break them are not modelled.
- The test file `tests/test_compartmentfitter.py` is not part of this model.

## Findings

| source | as written | input that shows it | evidently intended | confidence | as-written member | corrected member |
|---|---|---|---|---|---|---|
| neat/trees/compartmenttree.py:75 | `calcConductanceMatrix` adds `g_c` to the diagonal for every node, the root included, although the root's coupling is documented as ignored (lines 27-29). `_toStructureTensorG` has no slot for it, so the structure tensor does not reproduce the builder's matrix | a single root with `g_c = 1`, `g_l = 0`: the builder gives `[[1]]`, but its vector reconstructs `[[0]]` | the root's coupling takes no part in the conductance matrix, so the vector and the structure tensor reproduce the matrix | not executed | ConductanceFit.RootCouplingCounterexample | ConductanceFit.Reconstruction |
