/** The literal tables of lib/cross_sections.py: the shared energy grid and the
    elastic and inelastic cross-section curves of the eight materials, as exact
    decimals. Each table is written in rows of ten samples joined by `+`. */
module CrossSectionTables {

  // Sample energies in GeV, shared by every curve (59 points).
  const Energy: seq<real> :=
    [0.0005, 0.001, 0.0015, 0.002, 0.0025, 0.003, 0.0035, 0.004, 0.0045, 0.005] +
    [0.0055, 0.006, 0.0065, 0.007, 0.0075, 0.008, 0.009, 0.01, 0.011, 0.012] +
    [0.013, 0.014, 0.015, 0.0175, 0.02, 0.0225, 0.025, 0.03, 0.035, 0.04] +
    [0.045, 0.05, 0.051, 0.055, 0.06, 0.07, 0.08, 0.09, 0.1, 0.11] +
    [0.12, 0.14, 0.16, 0.18, 0.2, 0.225, 0.25, 0.275, 0.3, 0.325] +
    [0.35, 0.375, 0.4, 0.5, 0.7, 1.0, 1.5, 2.0, 2.5]

  // Elastic cross sections in barn, Z = 6 (carbon).
  const Z6Elastic: seq<real> :=
    [0.0, 0.0, 0.0, 0.0, 0.0, 0.321, 0.335, 0.349, 0.363, 0.377] +
    [0.386, 0.395, 0.404, 0.413, 0.423, 0.434, 0.456, 0.479, 0.509, 0.539] +
    [0.569, 0.598, 0.628, 0.685, 0.743, 0.783, 0.822, 0.878, 0.915, 0.938] +
    [0.813, 0.688, 0.678, 0.641, 0.594, 0.515, 0.448, 0.392, 0.345, 0.305] +
    [0.272, 0.214, 0.167, 0.138, 0.117, 0.098, 0.085, 0.077, 0.072, 0.068] +
    [0.067, 0.066, 0.067, 0.077, 0.09, 0.102, 0.108, 0.114, 0.113]

  // Inelastic cross sections in barn, Z = 6 (carbon).
  const Z6Inelastic: seq<real> :=
    [0.0, 0.0, 0.0, 0.0, 0.0, 0.0, 0.0, 0.0, 0.0, 0.013] +
    [0.078, 0.131, 0.175, 0.212, 0.244, 0.271, 0.314, 0.346, 0.370, 0.389] +
    [0.403, 0.413, 0.421, 0.432, 0.434, 0.432, 0.427, 0.412, 0.394, 0.376] +
    [0.359, 0.344, 0.288, 0.281, 0.272, 0.257, 0.245, 0.235, 0.228, 0.223] +
    [0.220, 0.223, 0.213, 0.212, 0.212, 0.212, 0.213, 0.214, 0.216, 0.217] +
    [0.219, 0.221, 0.223, 0.229, 0.246, 0.261, 0.261, 0.257, 0.255]

  // Elastic cross sections in barn, Z = 13 (aluminum).
  const Z13Elastic: seq<real> :=
    [0.0, 0.0, 0.0, 0.0, 0.0, 0.091, 0.164, 0.237, 0.311, 0.384] +
    [0.428, 0.473, 0.518, 0.562, 0.607, 0.623, 0.654, 0.686, 0.692, 0.699] +
    [0.701, 0.700, 0.700, 0.707, 0.714, 0.737, 0.761, 0.832, 0.905, 0.976] +
    [0.993, 1.010, 1.007, 0.994, 0.979, 0.921, 0.854, 0.786, 0.720, 0.658] +
    [0.601, 0.490, 0.382, 0.320, 0.274, 0.231, 0.202, 0.181, 0.167, 0.159] +
    [0.153, 0.151, 0.151, 0.170, 0.198, 0.220, 0.232, 0.243, 0.242]

  // Inelastic cross sections in barn, Z = 13 (aluminum).
  const Z13Inelastic: seq<real> :=
    [0.0, 0.0, 0.0, 0.0, 0.123, 0.280, 0.391, 0.474, 0.537, 0.587] +
    [0.626, 0.658, 0.684, 0.705, 0.722, 0.736, 0.757, 0.771, 0.780, 0.785] +
    [0.787, 0.787, 0.786, 0.777, 0.764, 0.749, 0.732, 0.699, 0.667, 0.638] +
    [0.611, 0.587, 0.530, 0.518, 0.503, 0.478, 0.456, 0.437, 0.422, 0.410] +
    [0.402, 0.397, 0.394, 0.393, 0.392, 0.393, 0.395, 0.397, 0.399, 0.402] +
    [0.405, 0.408, 0.411, 0.415, 0.438, 0.457, 0.460, 0.454, 0.450]

  // Elastic cross sections in barn, Z = 26 (iron).
  const Z26Elastic: seq<real> :=
    [0.0, 0.0, 0.0, 0.0, 0.0, 0.001, 0.015, 0.030, 0.045, 0.059] +
    [0.109, 0.159, 0.209, 0.259, 0.309, 0.364, 0.474, 0.584, 0.668, 0.753] +
    [0.819, 0.867, 0.915, 0.964, 1.013, 1.030, 1.047, 1.063, 1.075, 1.098] +
    [1.121, 1.143, 1.153, 1.192, 1.240, 1.293, 1.306, 1.289, 1.250, 1.198] +
    [1.137, 0.984, 0.777, 0.669, 0.582, 0.499, 0.438, 0.393, 0.361, 0.340] +
    [0.325, 0.317, 0.314, 0.346, 0.389, 0.425, 0.444, 0.461, 0.460]

  // Inelastic cross sections in barn, Z = 26 (iron).
  const Z26Inelastic: seq<real> :=
    [0.0, 0.0, 0.0, 0.0, 0.0, 0.0, 0.0, 0.017, 0.174, 0.301] +
    [0.404, 0.490, 0.562, 0.623, 0.676, 0.721, 0.795, 0.852, 0.896, 0.931] +
    [0.959, 0.981, 0.999, 1.028, 1.044, 1.05, 1.05, 1.04, 1.021, 0.999] +
    [0.976, 0.952, 0.920, 0.899, 0.873, 0.834, 0.790, 0.753, 0.719, 0.698] +
    [0.685, 0.672, 0.677, 0.674, 0.673, 0.674, 0.675, 0.678, 0.681, 0.685] +
    [0.689, 0.693, 0.697, 0.679, 0.710, 0.735, 0.744, 0.740, 0.739]

  // Elastic cross sections in barn, Z = 29 (copper). Only 58 samples: one point of the curve is missing from the source table.
  const Z29Elastic: seq<real> :=
    [0.0, 0.0, 0.0, 0.0, 0.0, 0.0, 0.017, 0.025, 0.033, 0.077] +
    [0.121, 0.165, 0.208, 0.252, 0.310, 0.426, 0.541, 0.634, 0.726, 0.800] +
    [0.855, 0.910, 0.971, 1.033, 1.058, 1.083, 1.113, 1.132, 1.156, 1.161] +
    [1.165, 1.175, 1.216, 1.268, 1.337, 1.368, 1.368, 1.343, 1.300, 1.245] +
    [1.092, 0.869, 0.752, 0.657, 0.565, 0.496, 0.446, 0.410, 0.384, 0.368] +
    [0.358, 0.353, 0.385, 0.429, 0.468, 0.488, 0.505, 0.504]

  // Inelastic cross sections in barn, Z = 29 (copper).
  const Z29Inelastic: seq<real> :=
    [0.0, 0.0, 0.0, 0.0, 0.0, 0.0, 0.0, 0.063, 0.225, 0.354] +
    [0.460, 0.548, 0.622, 0.685, 0.739, 0.786, 0.862, 0.920, 0.966, 1.003] +
    [1.032, 1.055, 1.073, 1.104, 1.121, 1.128, 1.128, 1.118, 1.100, 1.077] +
    [1.053, 1.029, 0.986, 0.966, 0.942, 0.902, 0.859, 0.822, 0.788, 0.765] +
    [0.749, 0.732, 0.736, 0.733, 0.732, 0.732, 0.734, 0.737, 0.740, 0.744] +
    [0.748, 0.752, 0.756, 0.736, 0.768, 0.794, 0.805, 0.804, 0.806]

  // Elastic cross sections in barn, Z = 73 (tantalum).
  const Z73Elastic: seq<real> :=
    [0.0, 0.0, 0.0, 0.0, 0.0, 0.0, 0.0, 0.0, 0.0, 0.0] +
    [0.0, 0.0, 0.0, 0.0, 0.0, 0.004, 0.011, 0.019, 0.072, 0.126] +
    [0.207, 0.316, 0.425, 0.704, 0.982, 1.124, 1.266, 1.401, 1.506, 1.586] +
    [1.593, 1.600, 1.608, 1.639, 1.679, 1.773, 1.884, 2.001, 2.109, 2.198] +
    [2.261, 2.255, 1.984, 1.831, 1.679, 1.506, 1.359, 1.240, 1.146, 1.07] +
    [1.022, 0.985, 0.963, 0.997, 1.053, 1.119, 1.186, 1.193, 1.192]

  // Inelastic cross sections in barn, Z = 73 (tantalum).
  const Z73Inelastic: seq<real> :=
    [0.0, 0.0, 0.0, 0.0, 0.0, 0.0, 0.0, 0.0, 0.0, 0.0] +
    [0.0, 0.0, 0.0, 0.0, 0.0, 0.012, 0.286, 0.505, 0.685, 0.833] +
    [0.958, 1.065, 1.156, 1.334, 1.462, 1.557, 1.628, 1.723, 1.779, 1.810] +
    [1.825, 1.831, 1.824, 1.823, 1.821, 1.807, 1.784, 1.761, 1.736, 1.705] +
    [1.676, 1.629, 1.604, 1.591, 1.578, 1.574, 1.568, 1.564, 1.560, 1.555] +
    [1.551, 1.546, 1.541, 1.549, 1.599, 1.641, 1.666, 1.669, 1.674]

  // Elastic cross sections in barn, Z = 74 (tungsten).
  const Z74Elastic: seq<real> :=
    [0.0, 0.0, 0.0, 0.0, 0.0, 0.0, 0.0, 0.0, 0.0, 0.0] +
    [0.0, 0.0, 0.0, 0.0, 0.0, 0.003, 0.010, 0.017, 0.067, 0.118] +
    [0.197, 0.305, 0.412, 0.694, 0.975, 1.121, 1.267, 1.404, 1.511, 1.591] +
    [1.600, 1.610, 1.618, 1.649, 1.689, 1.782, 1.893, 2.010, 2.120, 2.211] +
    [2.276, 2.275, 2.006, 1.852, 1.700, 1.526, 1.378, 1.258, 1.163, 1.090] +
    [1.037, 1.000, 0.977, 1.011, 1.067, 1.134, 1.171, 1.209, 1.207]

  // Inelastic cross sections in barn, Z = 74 (tungsten).
  const Z74Inelastic: seq<real> :=
    [0.0, 0.0, 0.0, 0.0, 0.0, 0.0, 0.0, 0.0, 0.0, 0.0] +
    [0.0, 0.0, 0.0, 0.0, 0.0, 0.0, 0.265, 0.489, 0.672, 0.823] +
    [0.951, 1.059, 1.152, 1.334, 1.465, 1.562, 1.635, 1.733, 1.790, 1.823] +
    [1.840, 1.846, 1.840, 1.839, 1.838, 1.825, 1.804, 1.782, 1.759, 1.728] +
    [1.700, 1.653, 1.626, 1.612, 1.599, 1.594, 1.588, 1.583, 1.578, 1.573] +
    [1.568, 1.562, 1.557, 1.568, 1.618, 1.659, 1.686, 1.689, 1.693]

  // Elastic cross sections in barn, Z = 78 (platinum).
  const Z78Elastic: seq<real> :=
    [0.0, 0.0, 0.0, 0.0, 0.0, 0.0, 0.0, 0.0, 0.0, 0.0] +
    [0.0, 0.0, 0.0, 0.0, 0.0, 0.002, 0.007, 0.011, 0.053, 0.095] +
    [0.166, 0.267, 0.368, 0.660, 0.951, 1.110, 1.268, 1.414, 1.527, 1.611] +
    [1.628, 1.644, 1.652, 1.684, 1.724, 1.815, 1.926, 2.044, 2.159, 2.257] +
    [2.330, 2.344, 2.082, 1.930, 1.776, 1.599, 1.447, 1.323, 1.224, 1.148] +
    [1.093, 1.053, 1.029, 1.063, 1.120, 1.188, 1.226, 1.265, 1.263]

  // Inelastic cross sections in barn, Z = 78 (platinum).
  const Z78Inelastic: seq<real> :=
    [0.0, 0.0, 0.0, 0.0, 0.0, 0.0, 0.0, 0.0, 0.0, 0.0] +
    [0.0, 0.0, 0.0, 0.0, 0.0, 0.0, 0.176, 0.415, 0.611, 0.774] +
    [0.911, 1.028, 1.128, 1.325, 1.467, 1.573, 1.653, 1.762, 1.827, 1.866] +
    [1.888, 1.898, 1.947, 1.935, 1.920, 1.896, 1.867, 1.833, 1.799, 1.762] +
    [1.729, 1.678, 1.658, 1.649, 1.641, 1.639, 1.638, 1.637, 1.637, 1.637] +
    [1.637, 1.637, 1.638, 1.633, 1.684, 1.727, 1.755, 1.758, 1.763]

  // Elastic cross sections in barn, Z = 82 (lead).
  const Z82Elastic: seq<real> :=
    [0.0, 0.0, 0.0, 0.0, 0.0, 0.0, 0.0, 0.0, 0.0, 0.0] +
    [0.0, 0.0, 0.0, 0.0, 0.0, 0.001, 0.004, 0.007, 0.040, 0.074] +
    [0.138, 0.231, 0.325, 0.625, 0.925, 1.097, 1.270, 1.426, 1.545, 1.633] +
    [1.659, 1.684, 1.692, 1.725, 1.765, 1.853, 1.962, 2.083, 2.203, 2.309] +
    [2.392, 2.423, 2.170, 2.020, 1.865, 1.685, 1.528, 1.399, 1.296, 1.216] +
    [1.158, 1.116, 1.090, 1.124, 1.181, 1.251, 1.291, 1.330, 1.328]

  // Inelastic cross sections in barn, Z = 82 (lead).
  const Z82Inelastic: seq<real> :=
    [0.0, 0.0, 0.0, 0.0, 0.0, 0.0, 0.0, 0.0, 0.0, 0.0] +
    [0.0, 0.0, 0.0, 0.0, 0.0, 0.0, 0.090, 0.346, 0.556, 0.731] +
    [0.878, 1.004, 1.112, 1.325, 1.479, 1.594, 1.682, 1.803, 1.877, 1.922] +
    [1.948, 1.962, 2.074, 2.048, 2.015, 1.979, 1.939, 1.892, 1.845, 1.801] +
    [1.762, 1.706, 1.695, 1.691, 1.690, 1.691, 1.695, 1.699, 1.705, 1.712] +
    [1.718, 1.725, 1.733, 1.711, 1.763, 1.807, 1.836, 1.840, 1.845]

}
