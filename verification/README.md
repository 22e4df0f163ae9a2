# GreaperMath core in Dafny

This project models the header-only math kernel of the Greaper engine. It covers:

- the two rectangle classes: the edge-based `RectT` in `Public/Rect.h`, and the origin-and-size `RectT` in `Public/Math/Rect.h`, called `LegacyRect` here;
- their text form (`ToString`/`FromString`);
- the 2×2, 3×3 and 4×4 matrices;
- the quaternion;
- 2D and 3D lines and segments;
- the line–line intersection solvers;
- the `VecRef` swizzle views.

Every scalar is a mathematical `real`. A C++ comparison `::IsNearlyEqual(a, b, tol)` becomes `|a - b| <= tol` with an explicit non-negative `Tolerance` parameter. The library's default tolerance `MATH_TOLERANCE` is defined in a file that is not part of this model, so it is always passed in. The library's `TReturn<T>` becomes a `Return<T>` datatype (`Failure | Success(value)`). Text conversion of a single scalar (`TCategory::ToString` / `TCategory::FromString`) is a parameter: a `format: real -> string` and a `parse: string -> Option<real>`.

Modules follow the source files:

- `Scalar` and `Vector2/3/4`: shared scalar and vector helpers.
- `RectBase`: measures and the point and rectangle classification that both rectangle classes share.
- `RectText`: the string primitives the parsers use (`find_first_of`, `find_last_of`, `substr` with 64-bit unsigned length arithmetic, tokenize, trim), and the two ways of cutting the bracketed groups.
- `Rect` and `LegacyRect`: the two rectangle classes.
- `Matrix2`, `Matrix3`, `Matrix4`, `Quaternion`.
- `Line2`, `Line3`, `Intersections`, `Segment2`, `Segment3`.
- `VecRef`: the reference views (`VecRef.h`) as field lenses over a vector.

Where the code and its evident intent disagree, the model keeps both: a member named `…AsWritten` that does what the code does, with a lemma that exhibits the discrepancy, and a corrected member that the rest of the model uses (see "## Findings").

A segment whose Begin equals its End has the zero vector as its direction, so the cross-product and dot-product tests of both inside checks pass for every point: such a segment contains the whole plane or space (`Segment2.DegenerateSegmentContainsEverything`, `Segment3.DegenerateSegmentContainsEverything`). The model keeps this behaviour, and the lemmas about points beyond the ends require a segment of non-zero length.

## Model

| member | source | states |
|---|---|---|
| RectBase.GetWidth | Public/Rect.h:107-111 | width is non-negative and zero exactly when Left equals Right |
| RectBase.GetHeight | Public/Rect.h:113-117 | height is non-negative and zero exactly when Top equals Bottom |
| RectBase.GetArea | Public/Rect.h:224-228 | area is non-negative and zero exactly when the rectangle is degenerate in width or height |
| RectBase.ClassifyPoint | Public/Rect.h:176-183 | classifying a single point never yields PARTIALLY_INSIDE |
| RectBase.ClassifyPointGeometry | Public/Rect.h:176-183 | for an oriented rectangle: FULLY_INSIDE iff the point is in the open interior, ON_THE_EDGE iff it is in the closed box but not the interior, OUTSIDE iff it is beyond the closed box |
| RectBase.CornerClassification | Public/Rect.h:125-147 | each corner of a rectangle with distinct edges is ON_THE_EDGE when the rectangle is oriented along at least one axis, and OUTSIDE when it is reversed along both |
| RectBase.CombineCornersByRank | Public/Rect.h:203-221 | over point verdicts the cascade gives FULLY_INSIDE iff all four corners are fully inside, PARTIALLY_INSIDE iff some but not all are, and otherwise the best corner's verdict |
| RectBase.ClassifyRectFullyInside | Public/Rect.h:198-207 | between oriented rectangles FULLY_INSIDE means every edge of the other lies strictly inside |
| RectBase.ClassifySelf | Public/Rect.h:198-221 | a rectangle with distinct edges tested against itself is ON_THE_EDGE when oriented along some axis and OUTSIDE when reversed along both |
| Rect.Make | Public/Rect.h:155-168 | the four-value constructor yields an oriented rectangle (Left <= Right, Bottom <= Top) holding the same two x values and the same two y values |
| Rect.MakeIdempotent | Public/Rect.h:155-168 | re-setting an oriented rectangle from its own fields changes nothing, and setting twice equals setting once |
| Rect.IsEmptyIffDegenerate | Public/Rect.h:230-234 | a rectangle is empty exactly when its width or its height is zero |
| Rect.IsInsidePoint | Public/Rect.h:170-184 | an empty rectangle gives OUTSIDE; the answer is never PARTIALLY_INSIDE; for an oriented non-empty rectangle FULLY_INSIDE iff the point is in the open interior and OUTSIDE iff beyond the closed box |
| Rect.CornersOnTheEdge | Public/Rect.h:179-181 | all four corners of a rectangle built with distinct edges are ON_THE_EDGE of it |
| Rect.IsInsideRect | Public/Rect.h:192-222 | an empty operand gives OUTSIDE; between oriented rectangles with the other non-empty, FULLY_INSIDE iff every edge of the other lies strictly inside |
| Rect.InsideItself | Public/Rect.h:192-222 | a non-empty rectangle is ON_THE_EDGE of itself when oriented along some axis (never FULLY_INSIDE), and OUTSIDE when reversed along both |
| Rect.IsEqual | Public/Rect.h:236-243 | exact equality holds iff all four fields agree |
| Rect.NotEqual | Public/Rect.h:96-99 | operator!= holds iff the rectangles differ |
| Rect.Assign | Public/Rect.h:274-289 | succeeds iff each group has two pieces and all four parse; on success the fields are the parsed values, stored without reorientation; on failure Bottom is untouched |
| Rect.FromStringAsWritten | Public/Rect.h:255-290 | as written: a text lacking any of the four delimiters, or whose groups do not split into two pieces each, is rejected and leaves the rectangle unchanged; otherwise it succeeds iff all four pieces parse, and then holds the parsed values as they are, without reorientation |
| Rect.FromString | Public/Rect.h:255-290 | the corrected parser: rejects a text lacking a delimiter or with a group not of two pieces and changes nothing then; otherwise succeeds iff all four pieces parse, and then holds the parsed values without reorientation |
| Rect.FromStringToString | Public/Rect.h:245-290 | the corrected parser reads back every rectangle ToString prints, whatever the receiver held before |
| Rect.FromStringAsWrittenRejectsToString | Public/Rect.h:269-272 | as written, a scalar parser that refuses a trailing `]` makes FromString reject every text ToString prints |
| RectText.FindFirstIsFirst | Public/Rect.h:258-260 | find_first_of finds no position iff the character is absent, and otherwise no earlier position holds it |
| RectText.FindLastIsLast | Public/Rect.h:261 | find_last_of finds no position iff the character is absent, and otherwise no later position holds it |
| RectText.SizeDiff | Public/Rect.h:269 | the unsigned length `end - begin` equals the difference when end >= begin and wraps modulo 2^64 otherwise |
| RectText.SubstrContents | Public/Rect.h:269 | substr returns the characters from the start position, clipped to the end of the string |
| RectText.TokenizePiecesClean | Public/Rect.h:269-272 | no piece of a tokenized text contains the separator |
| RectText.JoinTokenize | Public/Rect.h:269-272 | joining the pieces with the separator gives back the text |
| RectText.TokenizeJoin | Public/Rect.h:269-272 | tokenizing a join of separator-free pieces gives back those pieces |
| RectText.TrimStartDrops | Public/Rect.h:270 | trimming the start drops exactly a leading run of white space |
| RectText.TrimEndDrops | Public/Rect.h:270 | trimming the end drops exactly a trailing run of white space |
| RectText.TrimFacts | Public/Rect.h:270-272 | the trimmed text neither starts nor ends with white space, a text with no white space at either end is its own trim, and trimming twice is trimming once |
| RectText.TrimLeadingSpace | Public/Rect.h:270-272 | prefixing white space does not change the trimmed text |
| RectText.FindDelimitersFound | Public/Rect.h:258-267 | the search fails iff some delimiter is missing; otherwise each position holds its delimiter, the first three are first occurrences and the `)` is the last |
| RectText.GroupsMissing | Public/Rect.h:263-267 | a text lacking a delimiter yields no groups in either cutting mode |
| RectText.BracketedDelimiters | Public/Rect.h:252-261 | in a text printed from four values free of delimiters, the search finds exactly the four delimiters the printer wrote |
| RectText.GroupsOfBracketed | Public/Rect.h:252-272 | cutting the groups of a printed rectangle to their contents gives back the four trimmed values |
| RectText.GroupsOfBracketedAsWritten | Public/Rect.h:269-272 | cutting with length `end - begin` gives the four values with `]` and `)` still attached to the second of each pair |
| LegacyRect.FromOriginSize | Public/Math/Rect.h:113-121 | the origin is (left, top), the far edges are offset by width and -height, and the measured width and height are their absolute values |
| LegacyRect.SetSize | Public/Math/Rect.h:205-212 | the origin is kept, the result is oriented, and its width and height are the absolute values given |
| LegacyRect.SetOrigin | Public/Math/Rect.h:220-236 | the origin moves; without keepSize the far edges stay put; with keepSize the result is oriented with the old width and height |
| LegacyRect.SetOriginKeepSizeTranslates | Public/Math/Rect.h:228-235 | moving an oriented rectangle with keepSize translates all four edges by the same offset |
| LegacyRect.IsEmptyAgrees | Public/Math/Rect.h:304-308 | the `== 0` area test agrees with the newer `<= 0` test and holds iff the rectangle has no width or no height |
| LegacyRect.IsInsidePoint | Public/Math/Rect.h:244-258 | the point test always gives the newer rectangle's verdict |
| LegacyRect.IsInsideRect | Public/Math/Rect.h:266-296 | the rectangle test always gives the newer rectangle's verdict |
| LegacyRect.IsEqualAsWritten | Public/Math/Rect.h:310-317 | as written, equality holds iff Left, Top and Right agree, whatever the Bottoms |
| LegacyRect.IsEqualAsWrittenIgnoresBottom | Public/Math/Rect.h:313-316 | two rectangles differing only in Bottom compare equal as written |
| LegacyRect.IsEqual | Public/Math/Rect.h:310-317 | the corrected equality holds iff all four fields agree |
| LegacyRect.AssignSized | Public/Math/Rect.h:348-369 | fails iff a group lacks two pieces, a piece fails to parse, or a size parses to the sentinel -1; on success the rectangle has the parsed origin and the absolute parsed size; on failure Right and Bottom are untouched |
| LegacyRect.AssignSizedRestores | Public/Math/Rect.h:353-369 | the size steps applied to an oriented rectangle's origin and size rebuild that rectangle |
| LegacyRect.FromStringAsWritten | Public/Math/Rect.h:329-370 | as written the call never returns true; a missing delimiter or a group not of two pieces rejects and changes nothing; otherwise it runs off the end without a return value exactly when all pieces parse and neither size is -1, having set the parsed origin and the absolute parsed size |
| LegacyRect.FromStringAsWrittenNeverReturnsTrue | Public/Math/Rect.h:343-370 | even a parser lenient enough to accept the attached `]` and `)` only reaches the end without a return value |
| LegacyRect.FromString | Public/Math/Rect.h:329-370 | the corrected parser: a missing delimiter or a group not of two pieces rejects and changes nothing; otherwise it succeeds iff all pieces parse and neither size parses to the sentinel -1, and then holds the parsed origin with the absolute parsed size, so it is oriented |
| LegacyRect.FromStringToString | Public/Math/Rect.h:319-370 | the corrected parser reads back every oriented rectangle ToString prints |
| Matrix2.ArrayRoundTrip | Public/Math/Matrix2.h:72-75 | the row-major array view and the rows determine each other |
| Matrix2.At | Public/Math/Matrix2.h:45-54 | an index below the component count reads that entry of the row-major array |
| Matrix2.WithColumn | Public/Math/Matrix2.h:56-71 | writing through a column view sets that column and keeps the other |
| Matrix2.Transposed | Public/Math/Matrix2.h:105-113 | the rows of the transpose are the columns of the matrix |
| Matrix2.TransposeFacts | Public/Math/Matrix2.h:105-131 | transposing is an involution, keeps the trace, and reverses the order of a product |
| Matrix2.ScaleLeft | Public/Math/Matrix2.h:218-220 | scalar-times-matrix equals matrix-times-scalar, and its determinant is the square of the scalar times the determinant |
| Matrix2.VecMul | Public/Math/Matrix2.h:198-212 | a vector times the matrix, as written, equals the matrix times the vector; it equals the product with the transpose when the matrix is symmetric |
| Matrix2.VecMulAdjoint | Public/Math/Matrix2.h:198-212 | dotted with any vector w, the as-written v * m equals v dotted with the transpose of m times w |
| Matrix2.DeterminantScaled | Public/Math/Matrix2.h:101-104 | scaling all four entries by s scales the determinant by s squared |
| Matrix2.Inverted | Public/Math/Matrix2.h:114-127 | a nearly singular matrix is returned unchanged; otherwise the result is a two-sided inverse |
| Matrix2.InverseProducts | Public/Math/Matrix2.h:119-122 | the adjugate scaled by a reciprocal of the determinant is a two-sided inverse |
| Matrix2.DeterminantFacts | Public/Math/Matrix2.h:101-104 | the identity has determinant 1, the zero matrix 0, the transpose the same determinant, and a product the product of the determinants |
| Matrix2.ProductDeterminant | Public/Math/Matrix2.h:101-104 | the determinant of a 2×2 product factors into the two determinants |
| Matrix2.IdentityUnit | Public/Math/Matrix2.h:185-196 | the identity is a two-sided unit of the product and fixes every vector; the zero matrix absorbs |
| Matrix2.IsEqual | Public/Math/Matrix2.h:136-139 | exact equality holds iff every entry agrees |
| Matrix2.NearlyEqualFacts | Public/Math/Matrix2.h:132-139 | equal matrices pass the tolerance test, zero tolerance is exact equality, and the test is symmetric |
| Matrix2.IsZero | Public/Math/Matrix2.h:144-147 | holds iff the matrix is the zero matrix |
| Matrix2.IsIdentity | Public/Math/Matrix2.h:152-155 | holds iff the matrix is the identity |
| Matrix2.IsSymmetric | Public/Math/Matrix2.h:160-163 | holds iff the matrix equals its transpose |
| Matrix2.IsNearlySymmetric | Public/Math/Matrix2.h:156-159 | holds iff the matrix is within tolerance of its transpose, and always holds for a symmetric one |
| Matrix2.IsDiagonal | Public/Math/Matrix2.h:168-171 | holds iff both off-diagonal entries are zero; a diagonal matrix is symmetric |
| Matrix2.IsNearlyDiagonal | Public/Math/Matrix2.h:164-167 | passes iff the matrix is nearly equal to its diagonal part; a diagonal matrix passes; a nearly diagonal one is nearly symmetric at twice the tolerance |
| Matrix3.ArrayRoundTrip | Public/Math/Matrix3.h:81-84 | the row-major array view and the rows determine each other |
| Matrix3.At | Public/Math/Matrix3.h:46-55 | an index below the component count reads that entry of the row-major array |
| Matrix3.WithEntry | Public/Math/Matrix3.h:57-80 | writing one entry of a row through a column view keeps the row's other entries |
| Matrix3.WithColumn | Public/Math/Matrix3.h:57-80 | writing through a column view sets that column and keeps the others |
| Matrix3.Transposed | Public/Math/Matrix3.h:121-130 | the rows of the transpose are the columns of the matrix |
| Matrix3.TransposeFacts | Public/Math/Matrix3.h:121-160 | transposing is an involution and keeps the trace |
| Matrix3.ScaleLeft | Public/Math/Matrix3.h:266-268 | scalar-times-matrix equals matrix-times-scalar, and its determinant is the cube of the scalar times the determinant |
| Matrix3.VecMul | Public/Math/Matrix3.h:244-260 | a vector times the matrix, as written, equals the matrix times the vector; it equals the product with the transpose when the matrix is symmetric |
| Matrix3.VecMulAdjoint | Public/Math/Matrix3.h:244-260 | dotted with any vector w, the as-written v * m equals v dotted with the transpose of m times w |
| Matrix3.DeterminantScaled | Public/Math/Matrix3.h:115-120 | scaling every row by s scales the determinant by s cubed |
| Matrix3.Inverted | Public/Math/Matrix3.h:139-156 | a nearly singular matrix is returned unchanged; otherwise the result is a two-sided inverse |
| Matrix3.InverseProducts | Public/Math/Matrix3.h:139-152 | the transposed adjoint scaled by a reciprocal of the determinant is a two-sided inverse |
| Matrix3.RightInverse | Public/Math/Matrix3.h:139-152 | the matrix times that scaled transposed adjoint is the identity |
| Matrix3.LeftInverse | Public/Math/Matrix3.h:139-152 | that scaled transposed adjoint times the matrix is the identity |
| Matrix3.AdjugateProducts | Public/Math/Matrix3.h:131-138 | M times its adjugate, and the adjugate times M, are the determinant times the identity |
| Matrix3.AdjointRows | Public/Math/Matrix3.h:131-138 | the adjoint's rows are the cross products of the matrix's other two rows, in cyclic order |
| Matrix3.AdjointColumns | Public/Math/Matrix3.h:131-138 | the adjoint's columns are the cross products of the matrix's other two columns, in cyclic order |
| Matrix3.AdjointFirstRow | Public/Math/Matrix3.h:131-138 | row 0 dotted with the adjoint's row 0 is the determinant |
| Matrix3.DeterminantIsTripleProduct | Public/Math/Matrix3.h:115-120 | the determinant is the triple product of the rows, and also of the columns |
| Matrix3.DeterminantConstants | Public/Math/Matrix3.h:228-230 | the identity has determinant 1 and the zero matrix 0 |
| Matrix3.DeterminantEmbedded | Public/Math/Matrix3.h:44 | embedding a 2×2 matrix in the upper-left corner keeps its determinant |
| Matrix3.DeterminantTransposed | Public/Math/Matrix3.h:115-130 | the transpose has the same determinant |
| Matrix3.SwapRows | Public/Math/Matrix3.h:115-120 | swapping two rows negates the determinant |
| Matrix3.IdentityUnit | Public/Math/Matrix3.h:228-242 | the identity is a two-sided unit of the product and fixes every vector |
| Matrix3.IsEqual | Public/Math/Matrix3.h:165-168 | exact equality holds iff every entry agrees |
| Matrix3.NearlyEqualFacts | Public/Math/Matrix3.h:161-168 | equal matrices pass the tolerance test, and zero tolerance is exact equality |
| Matrix3.IsZero | Public/Math/Matrix3.h:173-176 | holds iff the matrix is the zero matrix |
| Matrix3.IsIdentity | Public/Math/Matrix3.h:181-184 | holds iff the matrix is the identity |
| Matrix3.IsSymmetric | Public/Math/Matrix3.h:191-196 | holds iff the matrix equals its transpose |
| Matrix3.IsNearlySymmetric | Public/Math/Matrix3.h:185-190 | holds iff the matrix is within tolerance of its transpose, and always holds for a symmetric one |
| Matrix3.IsDiagonal | Public/Math/Matrix3.h:206-214 | holds iff every off-diagonal entry is zero; a diagonal matrix is symmetric |
| Matrix3.IsNearlyDiagonal | Public/Math/Matrix3.h:197-205 | passes iff the matrix is nearly equal to its diagonal part; a diagonal matrix passes; a nearly diagonal one is nearly symmetric at twice the tolerance |
| Matrix4.ArrayRoundTrip | Public/Math/Matrix4.h:83-86 | the row-major array view and the rows determine each other |
| Matrix4.At | Public/Math/Matrix4.h:48-57 | an index below the component count reads that entry of the row-major array |
| Matrix4.WithEntry | Public/Math/Matrix4.h:59-82 | writing one entry of a row through a column view keeps the row's other entries |
| Matrix4.WithColumn | Public/Math/Matrix4.h:59-82 | writing through one of the three column views sets that column and keeps the others |
| Matrix4.Transposed | Public/Math/Matrix4.h:129-141 | the rows of the transpose are the columns of the matrix |
| Matrix4.TransposeFacts | Public/Math/Matrix4.h:129-141 | transposing is an involution and keeps the trace |
| Matrix4.ScaleLeft | Public/Math/Matrix4.h:302-304 | scalar-times-matrix equals matrix-times-scalar, and applied to any vector it gives the matrix applied to that vector scaled |
| Matrix4.VecMul | Public/Math/Matrix4.h:278-296 | a vector times the matrix, as written, equals the matrix times the vector; it equals the product with the transpose when the matrix is symmetric |
| Matrix4.VecMulAdjoint | Public/Math/Matrix4.h:278-296 | dotted with any vector w, the as-written v * m equals v dotted with the transpose of m times w |
| Matrix4.InvertedAsWritten | Public/Math/Matrix4.h:152-170 | as written, a nearly singular matrix is returned unchanged, and otherwise it is the transpose of the result that inverts the matrix |
| Matrix4.InvertedAsWrittenIsTransposed | Public/Math/Matrix4.h:157-166 | as written, the result is the transpose of the true inverse |
| Matrix4.InvertedAsWrittenIsNotAnInverse | Public/Math/Matrix4.h:157-166 | for a shear matrix the as-written result times the matrix is not the identity |
| Matrix4.Inverted | Public/Math/Matrix4.h:152-170 | the corrected inverse leaves a nearly singular matrix unchanged and is otherwise a right inverse |
| Matrix4.RightInverse | Public/Math/Matrix4.h:142-166 | with a non-zero determinant, the matrix times its adjugate over the determinant is the identity |
| Matrix4.AdjugateProduct | Public/Math/Matrix4.h:142-151 | the matrix times its adjugate is the determinant times the identity |
| Matrix4.DeterminantIsDot | Public/Math/Matrix4.h:122-128 | the determinant is row 0 dotted with the cofactors of the other three rows |
| Matrix4.CofactorsSwap | Public/Math/Matrix4.h:122-128 | swapping two of the three rows the cofactors are built from negates them |
| Matrix4.RepeatedRow | Public/Math/Matrix4.h:122-128 | a row dotted with cofactors built from itself and two other rows is zero |
| Matrix4.DeterminantOfIdentity | Public/Math/Matrix4.h:260-263 | the identity has determinant 1 |
| Matrix4.DeterminantOfZero | Public/Math/Matrix4.h:122-128 | the zero matrix has determinant 0 |
| Matrix4.DeterminantEmbedded | Public/Math/Matrix4.h:46 | embedding a 3×3 matrix in the upper-left corner keeps its determinant |
| Matrix4.IdentityUnit | Public/Math/Matrix4.h:260-276 | the identity is a two-sided unit of the product and fixes every vector |
| Matrix4.IsEqual | Public/Math/Matrix4.h:179-182 | exact equality holds iff every entry agrees |
| Matrix4.NearlyEqualFacts | Public/Math/Matrix4.h:175-182 | equal matrices pass the tolerance test, zero tolerance is exact equality, and the test is symmetric |
| Matrix4.IsZero | Public/Math/Matrix4.h:187-190 | holds iff the matrix is the zero matrix |
| Matrix4.IsIdentity | Public/Math/Matrix4.h:195-198 | holds iff the matrix is the identity |
| Matrix4.IsSymmetric | Public/Math/Matrix4.h:208-216 | holds iff the matrix equals its transpose |
| Matrix4.IsNearlySymmetric | Public/Math/Matrix4.h:199-207 | holds iff the matrix is within tolerance of its transpose, and always holds for a symmetric one |
| Matrix4.IsDiagonal | Public/Math/Matrix4.h:232-246 | holds iff every off-diagonal entry is zero; a diagonal matrix is symmetric |
| Matrix4.IsNearlyDiagonal | Public/Math/Matrix4.h:217-231 | passes iff the matrix is nearly equal to its diagonal part; every diagonal matrix passes |
| Matrix4.NearlyDiagonalIsNearlySymmetric | Public/Math/Matrix4.h:199-231 | a nearly diagonal matrix is nearly symmetric at twice the tolerance |
| Quaternion.ArrayRoundTrip | Public/Math/Quaternion.h:57-60 | the array view (W first) and the components determine each other |
| Quaternion.At | Public/Math/Quaternion.h:47-56 | an index below 4 reads that entry of the array view, index 0 being W |
| Quaternion.Conjugated | Public/Math/Quaternion.h:151-154 | the conjugate keeps W, and added to the quaternion cancels the vector part |
| Quaternion.ConjugateInvolution | Public/Math/Quaternion.h:151-158 | conjugating twice gives back the quaternion |
| Quaternion.NegatedAsWritten | Public/Math/Quaternion.h:45 | as written, unary minus keeps W and negates the rest: added to the quaternion it gives (2W, 0, 0, 0), and the quaternion times it is the squared length on the real axis |
| Quaternion.NegatedAsWrittenIsNotNegation | Public/Math/Quaternion.h:45 | as written, a quaternion with non-zero W plus its unary minus is not zero; for the identity the sum is (2, 0, 0, 0) |
| Quaternion.Negated | Public/Math/Quaternion.h:45 | the corrected unary minus adds to the quaternion, on either side, to give zero |
| Quaternion.DotCommutes | Public/Math/Quaternion.h:159-162 | the dot product is symmetric |
| Quaternion.LengthSquaredNonNegative | Public/Math/Quaternion.h:176-179 | the squared length, the quaternion dotted with itself, is never negative |
| Quaternion.AddSub | Public/Math/Quaternion.h:262-263 | subtraction undoes addition, in both orders, and addition commutes |
| Quaternion.ScaleLeft | Public/Math/Quaternion.h:267-269 | scalar-times-quaternion equals quaternion-times-scalar, and its squared length is the square of the scalar times the squared length |
| Quaternion.Divide | Public/Math/Quaternion.h:268 | multiplying the quotient back by the non-zero divisor gives the quaternion |
| Quaternion.ReciprocalCancels | Public/Math/Quaternion.h:268 | scaling by a reciprocal and then by the number itself gives back the quaternion |
| Quaternion.CrossProduct | Public/Math/Quaternion.h:163-171 | CrossProduct is the Hamilton product of operator*, and its conjugate is the product of the conjugates in reverse order |
| Quaternion.ConjugateOfProduct | Public/Math/Quaternion.h:163-171 | the conjugate of a Hamilton product is the product of the conjugates in reverse order |
| Quaternion.IdentityUnit | Public/Math/Quaternion.h:259-288 | the identity quaternion is a two-sided unit of the product and zero absorbs |
| Quaternion.ConjugateProduct | Public/Math/Quaternion.h:272-288 | a quaternion times its conjugate, either way round, is its squared length on the real axis |
| Quaternion.Inverse | Public/Math/Quaternion.h:172-175 | for a non-zero squared length the inverse is a two-sided inverse of the product |
| Quaternion.InverseProducts | Public/Math/Quaternion.h:172-175 | the conjugate divided by the squared length inverts the quaternion from both sides |
| Quaternion.Normalized | Public/Math/Quaternion.h:184-193 | a quaternion whose squared length is within tolerance is returned unchanged; otherwise it is scaled by the given inverse square root |
| Quaternion.NormalizedIsUnit | Public/Math/Quaternion.h:184-193 | with the exact inverse square root, normalizing gives squared length 1 |
| Quaternion.IsEqual | Public/Math/Quaternion.h:206-212 | exact equality holds iff every component agrees |
| Quaternion.Equals | Public/Math/Quaternion.h:291 | operator== is the symmetric tolerance test, holds for equal quaternions, and is exact equality at zero tolerance |
| Quaternion.NotEquals | Public/Math/Quaternion.h:292 | operator!= is the negation of operator== |
| Quaternion.IsZero | Public/Math/Quaternion.h:220-226 | holds iff the quaternion is zero |
| Quaternion.IsNearlyZero | Public/Math/Quaternion.h:213-219 | holds iff every component is within tolerance of zero, and always holds for zero |
| Quaternion.IsReal | Public/Math/Quaternion.h:235-241 | a real quaternion has non-zero W; at zero tolerance, real iff W is non-zero and the vector part is zero |
| Quaternion.RealConstants | Public/Math/Quaternion.h:235-241 | the identity is real for every tolerance below 1, and zero is never real |
| Line2.Default | Public/Line2.h:23-24 | a default line passes through the origin along a unit direction on the positive y axis |
| Line2.Set | Public/Line2.h:29-33 | Set stores the given origin and direction |
| Line2.SetOverwrites | Public/Line2.h:29-33 | Set keeps nothing of the previous line, and setting a line to its own fields changes nothing |
| Line2.IsEqual | Public/Line2.h:39-42 | exact equality holds iff origin and direction agree |
| Line2.NearlyEqualFacts | Public/Line2.h:35-42 | equal lines pass the tolerance test, zero tolerance is exact equality, and the test is symmetric |
| Line2.Equals | Public/Line2.h:45-46 | operator== is the tolerance test and always holds for equal lines |
| Line2.NotEquals | Public/Line2.h:47-48 | operator!= negates operator== and implies the lines differ |
| Line3.Default | Public/Math/Line3.h:23-24 | a default line passes through the origin along a unit direction on the positive y axis |
| Line3.Set | Public/Math/Line3.h:29-33 | Set stores the given origin and direction |
| Line3.SetOverwrites | Public/Math/Line3.h:29-33 | Set keeps nothing of the previous line, and setting a line to its own fields changes nothing |
| Line3.IsEqual | Public/Math/Line3.h:39-42 | exact equality holds iff origin and direction agree |
| Line3.NearlyEqualFacts | Public/Math/Line3.h:35-42 | equal lines pass the tolerance test, zero tolerance is exact equality, and the test is symmetric |
| Line3.Equals | Public/Math/Line3.h:45-46 | operator== is the tolerance test and always holds for equal lines |
| Line3.NotEquals | Public/Math/Line3.h:47-48 | operator!= negates operator== and implies the lines differ |
| Intersections.Line2LineIntersection | Public/Math/Intersections.h:27-39 | fails iff the directions' cross product is below 0.00001 in magnitude; otherwise returns two parameters at which the lines reach the same point |
| Intersections.LinesMeet | Public/Math/Intersections.h:35-37 | parameters that solve the two cross-product equations place both lines at the same point |
| Intersections.Line2LineIntersectionUnique | Public/Math/Intersections.h:31-37 | when the solver succeeds, any parameters at which the lines meet are the ones it returns |
| Intersections.ParallelLinesFail | Public/Math/Intersections.h:31-33 | a direction parallel to the first makes the solver fail |
| Intersections.Line2LineIntersectionAsWritten | Public/Math/Intersections.h:27-39 | as written, it fails exactly when the corrected solver does, and otherwise returns the sum of the directions scaled by the parameters, with no origin added |
| Intersections.Line2LineIntersectionAsWrittenMisses | Public/Math/Intersections.h:35-38 | lines from the origin along (10, 0) and from (5, -5) along (0, 10) meet at (5, 0), yet the value as written is (5, 5) |
| Intersections.AsWrittenDenominator | Public/Math/Intersections.h:56-62 | the denominator as written factors as d4343 times (d2121 - d1321) |
| Intersections.AsWrittenParameters | Public/Math/Intersections.h:62-68 | as written, fails iff that denominator is nearly zero; otherwise mua solves the numerator equation and mub the closest-point equation of line B |
| Intersections.Line3LineIntersectionAsWritten | Public/Math/Intersections.h:44-73 | as written, fails iff its denominator is nearly zero, and otherwise returns the point of line A at the parameter t with t times that denominator equal to d1343 d4321 - d1321 d4343 |
| Intersections.Line3LineIntersectionAsWrittenRejectsCrossingLines | Public/Math/Intersections.h:56-64 | lines with unit perpendicular directions whose origins differ by line A's direction cross, yet the solver as written fails for every tolerance below 1 while the corrected one succeeds |
| Intersections.ClosestParameters | Public/Math/Intersections.h:62-68 | fails iff the closest-point denominator or d4343 is nearly zero, and otherwise zeroes both gap dot products |
| Intersections.ClosestSolution | Public/Math/Intersections.h:66-68 | for non-zero divisors mua and mub zero both gap dot products |
| Intersections.Line3LineIntersection | Public/Math/Intersections.h:44-73 | the corrected solver fails iff a divisor is nearly zero, and otherwise returns parameters whose points are joined by a gap orthogonal to both directions |
| Intersections.ClosestPointGap | Public/Math/Intersections.h:48-71 | the gap between the points at s and t, dotted with each direction, is linear in s and t with the solver's dot products as coefficients |
| Intersections.Line3LineIntersectionUnique | Public/Math/Intersections.h:44-73 | when the corrected solver succeeds, any parameters at which the lines meet are the ones it returns |
| Segment2.Set | Public/Math/Segment2.h:29-33 | Set stores the given endpoints |
| Segment2.SetFrom | Public/Math/Segment2.h:34-38 | copying from another segment stores its endpoints |
| Segment2.SetOverwrites | Public/Math/Segment2.h:29-38 | Set keeps nothing of the previous segment, copying gives the other segment, and setting a segment to its own endpoints changes nothing |
| Segment2.DirectionCarriesBeginToEnd | Public/Math/Segment2.h:44-47 | the direction with magnitude is the one vector that carries Begin to End |
| Segment2.PointAtUnclampedLine | Public/Math/Segment2.h:56-59 | the unclamped point lies on the segment's line, at Begin for 0 and at End for 1 |
| Segment2.Clamp01 | Public/Math/Segment2.h:52-55 | the clamped parameter lies in [0, 1] and equals the input when the input does |
| Segment2.PointAt | Public/Math/Segment2.h:52-55 | within [0, 1] the point is the unclamped one; below it is Begin and above it End |
| Segment2.IsInside | Public/Math/Intersections.h:79-94 | a point whose cross product with the segment is not nearly zero, or whose projection falls before Begin or past End, is not inside |
| Segment2.PointsBetweenInside | Public/Math/Intersections.h:79-94 | every point of the segment at a parameter in [0, 1] is inside |
| Segment2.PointsBeyondOutside | Public/Math/Intersections.h:88-93 | on a segment of non-zero length, points on its line before Begin or past End are not inside |
| Segment2.DegenerateSegmentContainsEverything | Public/Math/Intersections.h:79-94 | a segment whose Begin equals its End contains every point, at every tolerance |
| Segment2.EndpointsInside | Public/Math/Intersections.h:79-94 | both endpoints pass the test |
| Segment2.InsideIsBetween | Public/Math/Intersections.h:79-94 | on a segment of non-zero length at zero tolerance, every point inside is the point at some parameter in [0, 1] |
| Segment2.Intersects | Public/Math/Segment2.h:60-72 | fails when the lines are nearly parallel; a success value is inside both segments and is the meeting point of the two lines |
| Segment2.IntersectsExactlyWithinBoth | Public/Math/Segment2.h:60-72 | for segments of non-zero length on crossing lines, it succeeds iff both line parameters lie in [0, 1], and then returns the crossing point |
| Segment2.IntersectsVertical | Public/Math/Segment2.h:60-72 | the segment from the origin to (10, 0) meets the vertical segment at x iff 0 <= x <= 10, at (x, 0) |
| Segment2.CrossingSolved | Public/Math/Segment2.h:60-72 | for that pair the solver returns the parameters (x / 10, 1/2) and the point at x / 10 is (x, 0) |
| Segment2.IsEqual | Public/Math/Segment2.h:78-81 | exact equality holds iff both endpoints agree |
| Segment2.NearlyEqualFacts | Public/Math/Segment2.h:74-81 | equal segments pass the tolerance test, zero tolerance is exact equality, and the test is symmetric |
| Segment2.Equals | Public/Math/Segment2.h:84-85 | operator== is the tolerance test and always holds for equal segments |
| Segment2.NotEquals | Public/Math/Segment2.h:86-87 | operator!= negates operator== and implies the segments differ |
| Segment3.Set | Public/Segment3.h:29-33 | Set stores the given endpoints |
| Segment3.SetFrom | Public/Segment3.h:34-38 | copying from another segment stores its endpoints |
| Segment3.SetOverwrites | Public/Segment3.h:29-38 | Set keeps nothing of the previous segment, copying gives the other segment, and setting a segment to its own endpoints changes nothing |
| Segment3.DirectionCarriesBeginToEnd | Public/Segment3.h:44-47 | the direction with magnitude is the one vector that carries Begin to End |
| Segment3.PointAtUnclampedLine | Public/Segment3.h:56-59 | the unclamped point lies on the segment's line, at Begin for 0 and at End for 1 |
| Segment3.Clamp01 | Public/Segment3.h:52-55 | the clamped parameter lies in [0, 1] and equals the input when the input does |
| Segment3.PointAt | Public/Segment3.h:52-55 | within [0, 1] the point is the unclamped one; below it is Begin and above it End |
| Segment3.IsPointInside | Public/Segment3.h:60-74 | a point whose cross product with the segment is not nearly zero, or whose projection falls before Begin or past End, is not inside |
| Segment3.PointsBetweenInside | Public/Segment3.h:60-74 | every point of the segment at a parameter in [0, 1] is inside |
| Segment3.PointsBeyondOutside | Public/Segment3.h:68-73 | on a segment of non-zero length, points on its line before Begin or past End are not inside |
| Segment3.DegenerateSegmentContainsEverything | Public/Segment3.h:60-74 | a segment whose Begin equals its End contains every point, at every tolerance |
| Segment3.EndpointsInside | Public/Segment3.h:60-74 | both endpoints pass the test |
| Segment3.InsideIsBetween | Public/Segment3.h:60-74 | on a segment of non-zero length at zero tolerance, every point inside is the point at some parameter in [0, 1] |
| Segment3.Intersects | Public/Segment3.h:75-87 | fails when the line solver fails; a success value is inside both segments and is this segment's closest point to the other line |
| Segment3.IntersectsExactlyWithinBoth | Public/Segment3.h:75-87 | for segments of non-zero length whose lines cross at fractions u and v, it succeeds iff both lie in [0, 1], and then returns the crossing point |
| Segment3.IsEqual | Public/Segment3.h:93-96 | exact equality holds iff both endpoints agree |
| Segment3.NearlyEqualFacts | Public/Segment3.h:89-96 | equal segments pass the tolerance test, zero tolerance is exact equality, and the test is symmetric |
| Segment3.Equals | Public/Segment3.h:99-100 | operator== is the tolerance test and always holds for equal segments |
| Segment3.NotEquals | Public/Segment3.h:101-102 | operator!= negates operator== and implies the segments differ |
| VecRef.Fields | Public/Base/VecRef.h:13-23 | every view names two to four components, in strictly increasing declaration order, so none twice |
| VecRef.Put | Public/Base/VecRef.h:13-23 | writing one component sets it and keeps every other |
| VecRef.ViewFields | Public/Base/VecRef.h:13-27 | a const view copies the named components in the order it names them |
| VecRef.WriteFields | Public/Base/VecRef.h:25-63 | writing through references keeps unnamed components and, for distinct names, sets each named one to its value |
| VecRef.WriteBackUnchanged | Public/Base/VecRef.h:25-27 | writing back the values a view copied changes nothing |
| VecRef.View | Public/Base/VecRef.h:13-23 | a swizzle view reads its named components in order |
| VecRef.Write | Public/Base/VecRef.h:25-63 | writing through a swizzle view keeps every component it does not name |
| VecRef.PutGet | Public/Base/VecRef.h:25-27 | reading a view after writing through it gives the written values |
| VecRef.GetPut | Public/Base/VecRef.h:25-27 | writing back what a view reads leaves the vector unchanged |
| VecRef.PutPut | Public/Base/VecRef.h:25-63 | a second write through the same view overrides the first |
| VecRef.DisjointWritesCommute | Public/Base/VecRef.h:13-23 | writes through views with no component in common commute |
| VecRef.WholeVectorView | Public/Base/VecRef.h:23 | the four-component view reads the whole vector, and writing through it replaces the vector |
| VecRef.SwizzleSets | Public/Base/VecRef.h:65-80 | a 3-vector gets exactly the pairs without W, and a 4-vector exactly the pairs and triples |
| VecRef.View3 | Public/Base/VecRef.h:65-68 | a view of a 3-vector reads its two named components |
| VecRef.Write3 | Public/Base/VecRef.h:65-68 | writing through a view of a 3-vector keeps the third component |
| VecRef.Vector3Lens | Public/Base/VecRef.h:65-68 | on 3-vectors, reading after writing gives the written values and writing back what was read changes nothing |

## Left out

- Text conversion of a single scalar (`TCategory::ToString`/`FromString`) is a parameter of the parsers and printers. The lemmas state only what they need of it (the printed text parses back).
- `StringUtils::Tokenize` and `StringUtils::TrimSelf` are defined in a file that is not part of this model. The model assumes they split at every separator and trim ASCII white space at both ends.
- The 64-bit `size_t` of `std::string` is modelled only where the parsers compute with it: the `end - begin` length, with its wrap-around.
- `Length`, `Distance`, `GetDirection`, `GetNormalized` and the Euler-angle conversions of the quaternion need a square root or trigonometry on floating point. They are left out. `Quaternion.Normalized` takes the inverse square root as a parameter instead.
- `Lerp` and `LerpUnclamped` are defined in a utilities file that is not part of this model. They are modelled as the clamped and unclamped linear interpolation. `MATH_TOLERANCE` is likewise a parameter.
- Floating-point rounding, `float` casts, the `float` return of the matrix `Trace`, and the `float invRight` of the quaternion's scalar division (`Public/Math/Quaternion.h:268`) are not modelled. Scalars are exact reals.
- `Quaternion.IsImaginary` calls itself unconditionally (infinite recursion). It has no defined result to model.
- `Public/Math/Matrix2.h:107` reads `R0.x` (lower case) in the transpose, which does not compile once instantiated. `Matrix2.Transposed` models the evident `R0.X`.
- `Matrix4.WithColumn`: requires the column index to be below 3, because the class declares column views C0 to C2 only.
- Matrix and quaternion `ToString`/`FromString` (sscanf/format based), hashing (`std::hash` specialisations), reflection headers, Windows `RECT` interop and the `Half` type are outside the modelled core.
- `Matrix4.Inverted`: only the right-inverse law is proved. The left inverse follows mathematically but is not stated.
- `Quaternion.Inverse`: requires a non-zero squared length. The source divides by it without a guard, so the zero quaternion gives a division by zero that has no real-valued model.
- `Quaternion.Divide`: requires a non-zero divisor, for the same reason.
- `LegacyRect.AssignSized`: on failure only Right and Bottom are stated to be kept. The Left and Top written before a later step fails are computed but not described in the contract. The model also takes a failed scalar conversion to leave its target as it was, because the scalar parser is a function `string -> Option<real>`. The source passes the field itself to `TCategory::FromString` (`Public/Math/Rect.h:354-357`), and what a failed conversion leaves there depends on that function, which is not part of this model.
- `Rect.Assign`: on failure only Bottom is stated to be kept, for the same reason. The same assumption about a failed conversion applies to the four fields passed to `TCategory::FromString` (`Public/Rect.h:279-286`): the fields reached on a failure path hold what they held before only if a failed conversion writes nothing.
- `Segment2.Intersects` is built on the corrected 2D solver, which returns the parameters. The source destructures the `TReturn` as a `std::tuple<bool, T, T>`, which does not compile against the written solver. The segment's own `IsPointInside` is undeclared, so the free `IsInside` of `Public/Math/Intersections.h:79-94` is used.
- `Segment3.IsPointInside` models the cross product assigned to a scalar (`Public/Segment3.h:64`) as "every component nearly zero", the evident intent.
- `Segment3.Intersects` calls the 3D overload, which the source also names `Line2LineIntersection`. It is modelled on the corrected closest-point solver, `Intersections.Line3LineIntersection`.
- The free `IsInside` for 3D segments (`Public/Math/Intersections.h:96-100`) has an empty body with no return value. The `constexpr` sample values at `Public/Math/Intersections.h:74-76` are compile-time test data. Neither is modelled.
- Integer rectangles (`RectU`, `RectI`) and their overflow are not modelled. Rectangles hold reals.

## Findings

| source | as written | input that shows it | evidently intended | confidence | as-written member | corrected member |
|---|---|---|---|---|---|---|
| Public/Rect.h:269-271 | each group is cut with length `end - begin`, which keeps the closing `]` or `)` on the second value | the text `ToString` prints for any rectangle, with a scalar parser that refuses a trailing bracket | cut `end - begin - 1` characters, so that `FromString(ToString(r))` restores `r` | not executed | Rect.FromStringAsWrittenRejectsToString | Rect.FromStringToString |
| Public/Math/Rect.h:343-370 | the same cut, and the success path ends without `return true` | the text `ToString` prints for any oriented rectangle, even with a lenient scalar parser | cut the group contents and return `true` after `SetSize` | not executed | LegacyRect.FromStringAsWrittenNeverReturnsTrue | LegacyRect.FromStringToString |
| Public/Math/Rect.h:310-317 | compares Top twice and never Bottom | `[0, 1](1, 0)` and `[0, 1](1, -5)` as edges compare equal | compare Bottom as the fourth field | not executed | LegacyRect.IsEqualAsWrittenIgnoresBottom | LegacyRect.IsEqual |
| Public/Math/Matrix4.h:152-166 | the adjugate over the determinant is transposed once more | the shear with rows (1,1,0,0), (0,1,0,0), (0,0,1,0), (0,0,0,1) | return the adjugate over the determinant, a true inverse | not executed | Matrix4.InvertedAsWrittenIsNotAnInverse | Matrix4.RightInverse |
| Public/Math/Quaternion.h:45 | unary minus returns the conjugate (only X, Y, Z negated) | the identity quaternion (W = 1) | negate all four components | not executed | Quaternion.NegatedAsWrittenIsNotNegation | Quaternion.Negated |
| Public/Math/Intersections.h:38 | returns `directionA * tA + directionB * tB` instead of a point on the lines | the line from (0, 0) along (10, 0) and the line from (5, -5) along (0, 10) meet at (5, 0), yet the value is (5, 5) | return the parameters, or `originA + directionA * tA` | not executed | Intersections.Line2LineIntersectionAsWrittenMisses | Intersections.Line2LineIntersectionUnique |
| Public/Math/Intersections.h:62 | the denominator is `d2121 * d4343 - d1321 * d4343` | line A through (1, 0, 0) along (1, 0, 0) and line B through the origin along (0, 1, 0) cross at the origin, yet `d1321 = d2121` makes the denominator zero | `d2121 * d4343 - d4321 * d4321` | not executed | Intersections.Line3LineIntersectionAsWrittenRejectsCrossingLines | Intersections.Line3LineIntersectionUnique |
